/** The aggregate result cache (`run_collection_aggregate` in core/app/analytics/aggregate.py).
    Its key lists raw files only, never the snapshot that was read. */
module ResultCache {
  import opened Wrappers
  import opened LakeRows
  import opened LakeSnapshots
  import opened LakeRuns

  const CACHE_MAX_ENTRIES: nat := 128
  const CACHE_MAX_ROWS: nat := 2000

  /** Everything a request brings to the key besides the files: tenant, collection, table,
      request body and masked fields. */
  datatype Query = Query(tenant: string, collection: string, table: string, body: string, masked: set<string>)

  /** The key before hashing; the sorted list of file names is their set. */
  datatype CacheKey = CacheKey(files: set<string>, query: Query)

  datatype Answer = Answer(category: seq<string>, rows: seq<string>)

  /** Result of a DuckDB aggregate, or the error it ends in. */
  datatype Outcome = Computed(answer: Answer) | Failed(reason: string)

  datatype Response = Served(answer: Answer) | Rejected(reason: string) | Busy

  /** A deterministic request: its outcome only depends on the bag of live rows. */
  type Engine = (multiset<Row>, Query) -> Outcome

  datatype Entry = Entry(key: CacheKey, answer: Answer)

  /** `answer` is what the engine computes from the newest versions of these rows. */
  ghost predicate IsAnswer(engine: Engine, raw: set<Row>, q: Query, outcome: Outcome) {
    forall view :: IsWindow(raw, view) ==> outcome == engine(multiset(Live(view)), q)
  }

  /** The raw files at each moment so far, the last one being now. */
  type Past = seq<Files>

  /** A file never changes under its name. */
  ghost predicate Immutable(past: Past) {
    forall i, j, f :: 0 <= i < j < |past| && f in past[i] && f in past[j] ==> past[i][f] == past[j][f]
  }

  /** This list of files, once replaced, does not come back. */
  ghost predicate Unreturned(past: Past, list: set<string>) {
    forall i, j, k :: 0 <= i <= j <= k < |past| && past[i].Keys == list && past[k].Keys == list ==> past[j].Keys == list
  }

  /** The answer is the one of some moment from `since` on. */
  ghost predicate AnswersSince(engine: Engine, past: Past, since: nat, q: Query, outcome: Outcome) {
    exists m :: since <= m < |past| && IsAnswer(engine, Raw(past[m]), q, outcome)
  }

  /** The files were listed at one moment and the answer computed then or later: others may
      write to the lake in between. */
  ghost predicate EntryOk(engine: Engine, past: Past, e: Entry) {
    && |e.answer.rows| <= CACHE_MAX_ROWS
    && exists listed :: 0 <= listed < |past| && past[listed].Keys == e.key.files &&
         AnswersSince(engine, past, listed, e.key.query, Computed(e.answer))
  }

  /** Nothing was written between listing and computing: the answer is of a moment with its list. */
  ghost predicate Settled(engine: Engine, past: Past, e: Entry) {
    exists m :: 0 <= m < |past| && past[m].Keys == e.key.files &&
      IsAnswer(engine, Raw(past[m]), e.key.query, Computed(e.answer))
  }

  ghost predicate AllSettled(engine: Engine, past: Past, entries: seq<Entry>) {
    forall i :: 0 <= i < |entries| ==> Settled(engine, past, entries[i])
  }

  ghost predicate AllOk(engine: Engine, past: Past, entries: seq<Entry>) {
    && (forall i :: 0 <= i < |entries| ==> EntryOk(engine, past, entries[i]))
    && (forall i, j :: 0 <= i < j < |entries| ==> entries[i].key != entries[j].key)
  }

  /** `move_to_end`. */
  function MoveToEnd(entries: seq<Entry>, i: nat): seq<Entry>
    requires i < |entries|
  {
    entries[..i] + entries[i + 1..] + [entries[i]]
  }

  lemma MovedOk(engine: Engine, past: Past, entries: seq<Entry>, i: nat)
    requires AllOk(engine, past, entries) && i < |entries|
    ensures AllOk(engine, past, MoveToEnd(entries, i))
    ensures AllSettled(engine, past, entries) ==> AllSettled(engine, past, MoveToEnd(entries, i))
  {
    var moved := MoveToEnd(entries, i);
    forall k | 0 <= k < |moved|
      ensures moved[k] == entries[if k < i then k else if k < |entries| - 1 then k + 1 else i]
    {
    }
  }

  class Cache {
    const engine: Engine
    /** Oldest use first, as in the OrderedDict. */
    var entries: seq<Entry>

    ghost predicate Valid(past: Past)
      reads this
    {
      |entries| <= CACHE_MAX_ENTRIES && AllOk(engine, past, entries)
    }

    constructor (engine: Engine)
      ensures Valid([]) && entries == [] && this.engine == engine
    {
      this.engine := engine;
      entries := [];
    }

    method Find(key: CacheKey) returns (i: nat)
      ensures i <= |entries|
      ensures i < |entries| ==> entries[i].key == key
      ensures forall j :: 0 <= j < i ==> entries[j].key != key
    {
      i := 0;
      while i < |entries| && entries[i].key != key
        invariant i <= |entries|
        invariant forall j :: 0 <= j < i ==> entries[j].key != key
      {
        i := i + 1;
      }
    }

    /** The first atomic step of a request, some time after it listed the files. */
    method Lookup(key: CacheKey, ghost past: Past) returns (hit: Option<Answer>)
      requires Valid(past)
      modifies this`entries
      ensures Valid(past)
      ensures hit.Some? ==> EntryOk(engine, past, Entry(key, hit.value))
      ensures hit.Some? ==> entries != [] && entries[|entries| - 1] == Entry(key, hit.value)
      ensures hit.None? ==> entries == old(entries)
      ensures LookedUp(old(entries), key, hit, entries)
      ensures AllSettled(engine, past, old(entries)) ==> AllSettled(engine, past, entries)
    {
      var i := Find(key);
      if i == |entries| {
        return None;
      }
      var e := entries[i];
      MovedOk(engine, past, entries, i);
      entries := MoveToEnd(entries, i);
      return Some(e.answer);
    }

    /** The last atomic step of a request that computed: a short answer is kept, in the place of
        one stored meanwhile for the same key, and the least recently used entries beyond the
        limit go. */
    method Keep(e: Entry, ghost past: Past, ghost listed: nat)
      requires Valid(past)
      requires listed < |past| && past[listed].Keys == e.key.files
      requires AnswersSince(engine, past, listed, e.key.query, Computed(e.answer))
      modifies this`entries
      ensures Valid(past)
      ensures |e.answer.rows| > CACHE_MAX_ROWS ==> entries == old(entries)
      ensures |e.answer.rows| > 2000 ==> entries == old(entries)
      ensures |e.answer.rows| <= 2000 ==> e in entries
      ensures |e.answer.rows| <= CACHE_MAX_ROWS ==> Kept(old(entries), e, entries)
      ensures AllSettled(engine, past, old(entries)) && Settled(engine, past, e) ==> AllSettled(engine, past, entries)
    {
      if |e.answer.rows| > CACHE_MAX_ROWS {
        return;
      }
      var i := Find(e.key);
      var after := Put(entries, i, e);
      KeptOk(engine, past, entries, e, after);
      entries := after;
    }

    /** The aggregate over the reader's live view. */
    method Compute(lake: LakeStorage, q: Query, listingWorks: bool)
      returns (outcome: Outcome, ghost choice: Option<Key>)
      requires (lake.files != map[] ==> Sound(lake.files, lake.objects)) && VersionsIdentify(Raw(lake.files))
      ensures IsAnswer(engine, Raw(lake.files), q, outcome)
      ensures ComputedFrom(engine, lake.files, lake.objects, choice, q, outcome)
    {
      var read, view := lake.ReadCurrent(listingWorks);
      choice := read;
      outcome := engine(multiset(Live(view)), q);
      if lake.files == map[] {
        RawEmpty();
      } else {
        ReaderSeesNewest(lake.files, lake.objects, choice, view);
      }
      OneAnswer(engine, Raw(lake.files), q, view);
    }

    /** Transparency of a request during which nothing is written, over entries of such requests:
        whether it hits or misses, it serves what the engine computes from the newest versions of
        all raw rows now, whatever happened to files and snapshots since an entry was stored,
        purges included. `slotFree` is the outcome of the tenant slot. */
    method RunAggregate(lake: LakeStorage, q: Query, listingWorks: bool, slotFree: bool, ghost past: Past)
      returns (r: Response, ghost choice: Option<Key>)
      requires Valid(past) && Immutable(past) && AllSettled(engine, past, entries)
      requires past != [] && lake.files == past[|past| - 1]
      requires (lake.files != map[] ==> Sound(lake.files, lake.objects)) && VersionsIdentify(Raw(lake.files))
      modifies this`entries
      ensures Valid(past) && AllSettled(engine, past, entries)
      ensures r.Served? ==> IsAnswer(engine, Raw(lake.files), q, Computed(r.answer))
      ensures r.Rejected? ==> IsAnswer(engine, Raw(lake.files), q, Failed(r.reason))
      ensures r.Busy? ==> !slotFree
      // an answer in the cache needs no slot
      ensures HasEntry(old(entries), CacheKey(lake.files.Keys, q)) ==> r.Served?
      // nothing is remembered of a failure or of a request that found no slot
      ensures !r.Served? ==> entries == old(entries)
      ensures Remembered(CacheKey(lake.files.Keys, q), r, entries)
      ensures Responds(engine, lake.files, lake.objects, choice, old(entries), q, r, entries)
    {
      choice := None;
      var key := CacheKey(lake.files.Keys, q);
      var hit := Lookup(key, past);
      if hit.Some? {
        SettledIsRight(engine, past, entries[|entries| - 1], |past| - 1);
        r := Served(hit.value);
        return;
      }
      if !slotFree {
        r := Busy;
        return;
      }
      var outcome, read := Compute(lake, q, listingWorks);
      choice := read;
      r := Finish(key, outcome, past);
    }

    /** What a request does with the outcome it computed. */
    method Finish(key: CacheKey, outcome: Outcome, ghost past: Past) returns (r: Response)
      requires Valid(past) && past != [] && past[|past| - 1].Keys == key.files
      requires IsAnswer(engine, Raw(past[|past| - 1]), key.query, outcome)
      requires forall i :: 0 <= i < |entries| ==> entries[i].key != key
      modifies this`entries
      ensures Valid(past)
      ensures r == match outcome case Computed(answer) => Served(answer) case Failed(reason) => Rejected(reason)
      ensures outcome.Failed? ==> entries == old(entries)
      ensures outcome.Computed? ==> Updated(old(entries), Entry(key, outcome.answer), entries)
      ensures Remembered(key, r, entries)
      ensures AllSettled(engine, past, old(entries)) ==> AllSettled(engine, past, entries)
    {
      match outcome
      case Failed(reason) =>
        r := Rejected(reason);
      case Computed(answer) =>
        assert AnswersSince(engine, past, |past| - 1, key.query, Computed(answer));
        Keep(Entry(key, answer), past, |past| - 1);
        r := Served(answer);
    }
  }

  /** A served answer is the most recent entry, unless it is too long to keep. */
  ghost predicate Remembered(key: CacheKey, r: Response, entries: seq<Entry>) {
    r.Served? && |r.answer.rows| <= CACHE_MAX_ROWS ==>
      entries != [] && entries[|entries| - 1] == Entry(key, r.answer)
  }

  /** The assignment of the entry at its place `i`, then `popitem(last=False)` beyond the limit. */
  method Put(before: seq<Entry>, i: nat, e: Entry) returns (after: seq<Entry>)
    requires |before| <= CACHE_MAX_ENTRIES && i <= |before| && (i < |before| ==> before[i].key == e.key)
    requires forall j :: 0 <= j < i ==> before[j].key != e.key
    ensures Kept(before, e, after) && |after| <= CACHE_MAX_ENTRIES
    // on the numbers: the oldest leaves when a hundred and twenty-eight others are there
    ensures |after| <= 128
    ensures i == |before| ==> after == (if |before| < 128 then before else before[1..]) + [e]
  {
    if i < |before| {
      return before[i := e];
    }
    after := before + [e];
    while |after| > CACHE_MAX_ENTRIES
      invariant |after| == |before| + 1 ==> after == before + [e]
      invariant |after| <= |before| ==> |after| == CACHE_MAX_ENTRIES && after == before[1..] + [e]
      invariant |before| <= |after| <= |before| + 1
      decreases |after|
    {
      after := after[1..];
    }
  }

  lemma KeptOk(engine: Engine, past: Past, before: seq<Entry>, e: Entry, after: seq<Entry>)
    requires AllOk(engine, past, before) && EntryOk(engine, past, e) && Kept(before, e, after)
    ensures AllOk(engine, past, after)
    ensures AllSettled(engine, past, before) && Settled(engine, past, e) ==> AllSettled(engine, past, after)
    ensures e in after
  {
    if HasEntry(before, e.key) {
      var i :| 0 <= i < |before| && before[i].key == e.key && after == before[i := e];
      assert after[i] == e;
      forall k | 0 <= k < |after|
        ensures after[k] == if k == i then e else before[k]
      {
      }
    } else {
      var d := if |before| < CACHE_MAX_ENTRIES then 0 else 1;
      forall k | 0 <= k < |after|
        ensures after[k] == if k == |after| - 1 then e else before[k + d]
      {
      }
    }
  }

  ghost predicate HasEntry(entries: seq<Entry>, key: CacheKey) {
    exists i :: 0 <= i < |entries| && entries[i].key == key
  }

  /** A hit is an entry of this key, moved to the end; a miss is that there is none. */
  ghost predicate LookedUp(before: seq<Entry>, key: CacheKey, hit: Option<Answer>, after: seq<Entry>) {
    match hit
    case None => after == before && forall i :: 0 <= i < |before| ==> before[i].key != key
    case Some(a) => exists i :: 0 <= i < |before| && before[i] == Entry(key, a) && after == MoveToEnd(before, i)
  }

  /** A look-up on the places: an entry of the key, if there is one, is served and moves behind all others,
      which keep their order; keys are distinct. */
  lemma HitMovesBack(before: seq<Entry>, key: CacheKey, hit: Option<Answer>, after: seq<Entry>, i: nat)
    requires LookedUp(before, key, hit, after) && i < |before| && before[i].key == key
    requires forall k, l :: 0 <= k < l < |before| ==> before[k].key != before[l].key
    ensures hit == Some(before[i].answer) && after == before[..i] + before[i + 1..] + [before[i]]
  {
    var j :| 0 <= j < |before| && before[j] == Entry(key, hit.value) && after == MoveToEnd(before, j);
    assert j == i;
  }

  /** The outcome of a request that reads the lake through this snapshot, or none. */
  ghost predicate ComputedFrom(engine: Engine, files: Files, objects: Objects, choice: Option<Key>,
                               q: Query, outcome: Outcome) {
    && (choice.Some? ==> Listed(objects, choice.value))
    && exists view :: LakeSnapshots.Served(files, objects, choice, view) && outcome == engine(multiset(Live(view)), q)
  }

  /** The cache after an answer was computed: kept unless it is too long. */
  ghost predicate Updated(before: seq<Entry>, e: Entry, after: seq<Entry>) {
    if |e.answer.rows| > CACHE_MAX_ROWS then after == before else Kept(before, e, after)
  }

  /** A whole request during which nothing is written: the entry of its key, or no slot, or what is
      computed through some snapshot; a computed answer enters the cache. */
  ghost predicate Responds(engine: Engine, files: Files, objects: Objects, choice: Option<Key>, before: seq<Entry>,
                           q: Query, r: Response, after: seq<Entry>) {
    var key := CacheKey(files.Keys, q);
    if HasEntry(before, key) then r.Served? && LookedUp(before, key, Some(r.answer), after)
    else
      match r
      case Busy => after == before
      case Rejected(reason) => after == before && ComputedFrom(engine, files, objects, choice, q, Failed(reason))
      case Served(a) =>
        Updated(before, Entry(key, a), after) && ComputedFrom(engine, files, objects, choice, q, Computed(a))
  }

  /** A kept entry replaces the one of its key, or comes last while the oldest makes room. */
  ghost predicate Kept(before: seq<Entry>, e: Entry, after: seq<Entry>) {
    if HasEntry(before, e.key) then
      exists i :: 0 <= i < |before| && before[i].key == e.key && after == before[i := e]
    else
      after == (if |before| < CACHE_MAX_ENTRIES then before else before[1..]) + [e]
  }

  /** Immutable files suffice: an entry computed while its list held is right whenever it holds. */
  lemma SettledIsRight(engine: Engine, past: Past, e: Entry, l: nat)
    requires Immutable(past) && Settled(engine, past, e)
    requires l < |past| && past[l].Keys == e.key.files
    ensures IsAnswer(engine, Raw(past[l]), e.key.query, Computed(e.answer))
  {
    var m :| 0 <= m < |past| && past[m].Keys == e.key.files &&
      IsAnswer(engine, Raw(past[m]), e.key.query, Computed(e.answer));
    SameListSameFiles(past, m, l);
  }

  lemma SameListSameFiles(past: Past, i: nat, j: nat)
    requires Immutable(past) && i < |past| && j < |past| && past[i].Keys == past[j].Keys
    ensures past[i] == past[j]
  {
  }

  /** A request that lists at moment `a` and computes at moment `b` stores what is right at every
      moment `l` with its list, whatever was asked, if and only if the writes in between changed
      no live row. */
  lemma RightWheneverListedIff(past: Past, a: nat, b: nat, l: nat, q: Query, viewA: seq<Row>, viewB: seq<Row>)
    requires Immutable(past) && a <= b < |past| && l < |past| && past[a].Keys == past[l].Keys
    requires VersionsIdentify(Raw(past[a])) && VersionsIdentify(Raw(past[b]))
    requires IsWindow(Raw(past[a]), viewA) && IsWindow(Raw(past[b]), viewB)
    ensures RightForAll(past[b], past[l], q) <==> multiset(Live(viewA)) == multiset(Live(viewB))
  {
    SameListSameFiles(past, a, l);
    if multiset(Live(viewA)) == multiset(Live(viewB)) {
      forall engine: Engine, o | IsAnswer(engine, Raw(past[b]), q, o)
        ensures IsAnswer(engine, Raw(past[l]), q, o)
      {
        OneAnswer(engine, Raw(past[a]), q, viewA);
      }
    } else {
      TellsApart(past[b], past[l], q, viewB, viewA);
    }
  }

  /** Every deterministic request has at the second moment the outcome it had at the first. */
  ghost predicate RightForAll(earlier: Files, now: Files, q: Query) {
    forall engine: Engine, o :: IsAnswer(engine, Raw(earlier), q, o) ==> IsAnswer(engine, Raw(now), q, o)
  }

  lemma TellsApart(earlier: Files, now: Files, q: Query, viewThen: seq<Row>, viewNow: seq<Row>)
    requires VersionsIdentify(Raw(earlier)) && IsWindow(Raw(earlier), viewThen) && IsWindow(Raw(now), viewNow)
    requires multiset(Live(viewNow)) != multiset(Live(viewThen))
    ensures !RightForAll(earlier, now, q)
  {
    var seen := multiset(Live(viewThen));
    var engine: Engine := (live: multiset<Row>, _: Query) =>
      if live == seen then Failed("seen") else Failed("other");
    Recognises(engine, earlier, now, q, viewThen, viewNow);
    WrongForOne(earlier, now, q, engine, Failed("seen"));
  }

  lemma WrongForOne(earlier: Files, now: Files, q: Query, engine: Engine, o: Outcome)
    requires IsAnswer(engine, Raw(earlier), q, o) && !IsAnswer(engine, Raw(now), q, o)
    ensures !RightForAll(earlier, now, q)
  {
  }

  lemma Recognises(engine: Engine, earlier: Files, now: Files, q: Query, viewThen: seq<Row>, viewNow: seq<Row>)
    requires VersionsIdentify(Raw(earlier)) && IsWindow(Raw(earlier), viewThen) && IsWindow(Raw(now), viewNow)
    requires engine(multiset(Live(viewThen)), q) == Failed("seen")
    requires engine(multiset(Live(viewNow)), q) == Failed("other")
    ensures IsAnswer(engine, Raw(earlier), q, Failed("seen")) && !IsAnswer(engine, Raw(now), q, Failed("seen"))
  {
    OneAnswer(engine, Raw(earlier), q, viewThen);
  }

  /** A hit on a list that never returned is linearizable: the moment of its answer lies within
      the request, whatever others wrote while the entry was computed. */
  lemma HitIsOfTheRequest(engine: Engine, past: Past, e: Entry, listed: nat)
    requires EntryOk(engine, past, e) && Immutable(past) && Unreturned(past, e.key.files)
    requires listed < |past| && past[listed].Keys == e.key.files
    ensures AnswersSince(engine, past, listed, e.key.query, Computed(e.answer))
  {
    var first :| 0 <= first < |past| && past[first].Keys == e.key.files &&
      AnswersSince(engine, past, first, e.key.query, Computed(e.answer));
    var m :| first <= m < |past| && IsAnswer(engine, Raw(past[m]), e.key.query, Computed(e.answer));
    if m < listed {
      assert past[m].Keys == e.key.files;
      SameListSameFiles(past, m, listed);
    }
  }

  /** The empty list does return, and then a hit may be stale: a request lists no file, computes
      after the first one has arrived, and is served again once the lake has been purged. */
  lemma PurgeServesStale(r: Row, marker: int, q: Query)
    returns (run: seq<Lake>, engine: Engine, past: Past, e: Entry)
    requires r.op != Delete && r.lsn < marker
    ensures IsRun(run) && |past| == |run| == 5 && forall i :: 0 <= i < 5 ==> past[i] == run[i].files
    ensures Immutable(past) && run[4].purging.None? && past[4].Keys == e.key.files && e.key.query == q
    ensures EntryOk(engine, past, e) && !AnswersSince(engine, past, 4, q, Computed(e.answer))
  {
    run := FilledAndPurged(r, marker);
    past := [run[0].files, run[1].files, run[2].files, run[3].files, run[4].files];
    OneFile("f", r);
    engine := (live: multiset<Row>, _: Query) => Computed(Answer([], if live == multiset{} then [] else ["row"]));
    e := Entry(CacheKey({}, q), Answer([], ["row"]));
    StaleAnswer(engine, past[1], r, q);
    assert past[0].Keys == {} && IsAnswer(engine, Raw(past[1]), q, Computed(e.answer));
    assert AnswersSince(engine, past, 0, q, Computed(e.answer));
  }

  lemma StaleAnswer(engine: Engine, files: Files, r: Row, q: Query)
    requires r.op != Delete && Raw(files) == {r}
    requires forall live :: engine(live, q) == Computed(Answer([], if live == multiset{} then [] else ["row"]))
    ensures IsAnswer(engine, Raw(files), q, Computed(Answer([], ["row"])))
    ensures !IsAnswer(engine, Raw(map[]), q, Computed(Answer([], ["row"])))
  {
    forall view | IsWindow({r}, view)
      ensures multiset(Live(view)) != multiset{}
    {
      LiveMeansNewestNotDeleted({r}, view, r);
      assert r in Live(view) && r in multiset(Live(view));
    }
    RawEmpty();
    var nothing: seq<Row> := [];
    assert IsWindow(Raw(map[]), nothing) && multiset(Live(nothing)) == multiset{};
    assert engine(multiset(Live(nothing)), q) == Computed(Answer([], []));
  }

  lemma OneAnswer(engine: Engine, raw: set<Row>, q: Query, view: seq<Row>)
    requires VersionsIdentify(raw) && IsWindow(raw, view)
    ensures IsAnswer(engine, raw, q, engine(multiset(Live(view)), q))
  {
    forall other | IsWindow(raw, other)
      ensures multiset(Live(other)) == multiset(Live(view))
    {
      WindowUnique(raw, view, other);
    }
  }

  /** An answer is unique: two entries computed from different snapshots of the same files
      hold the same result, so serving either is serving a fresh computation. */
  lemma AnswerIsUnique(engine: Engine, raw: set<Row>, q: Query, a: Outcome, b: Outcome)
    requires IsAnswer(engine, raw, q, a) && IsAnswer(engine, raw, q, b)
    ensures a == b
  {
    var view := WindowExists(raw);
  }

  /** An answer on the columns: what the engine computes from the bag of the live rows with the highest
      version of their key, each once. */
  lemma AnswerHolds(engine: Engine, raw: set<Row>, q: Query, o: Outcome) returns (bag: multiset<Row>)
    requires VersionsIdentify(raw) && IsAnswer(engine, raw, q, o)
    ensures o == engine(bag, q)
    ensures forall r :: bag[r] <= 1
    ensures forall r :: r in bag <==> r in raw && r.op != Op.Delete && forall s :: s in raw && s.pk == r.pk ==>
      s.lsn < r.lsn || (s.lsn == r.lsn &&
        (if s.seqNo.Some? then s.seqNo.value else -1) <= (if r.seqNo.Some? then r.seqNo.value else -1))
  {
    var view := WindowExists(raw);
    bag := multiset(Live(view));
    forall r
      ensures bag[r] <= 1
      ensures r in bag <==> r in raw && r.op != Op.Delete && forall s :: s in raw && s.pk == r.pk ==>
        s.lsn < r.lsn || (s.lsn == r.lsn &&
          (if s.seqNo.Some? then s.seqNo.value else -1) <= (if r.seqNo.Some? then r.seqNo.value else -1))
    {
      LiveHolds(raw, view, r);
      assert r in Live(view) <==> r in bag;
    }
  }

  lemma SettledGrows(engine: Engine, past: Past, files: Files, e: Entry)
    requires Settled(engine, past, e)
    ensures Settled(engine, past + [files], e)
  {
    var m :| 0 <= m < |past| && past[m].Keys == e.key.files &&
      IsAnswer(engine, Raw(past[m]), e.key.query, Computed(e.answer));
    assert (past + [files])[m] == past[m];
  }

  /** Whatever others write next, entries stay as good as they were. */
  lemma PastGrows(engine: Engine, past: Past, files: Files, e: Entry)
    requires EntryOk(engine, past, e)
    ensures EntryOk(engine, past + [files], e)
  {
    var more := past + [files];
    var listed :| 0 <= listed < |past| && past[listed].Keys == e.key.files &&
      AnswersSince(engine, past, listed, e.key.query, Computed(e.answer));
    var m :| listed <= m < |past| && IsAnswer(engine, Raw(past[m]), e.key.query, Computed(e.answer));
    assert more[listed] == past[listed] && more[m] == past[m];
  }
}
