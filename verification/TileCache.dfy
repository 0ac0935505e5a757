/** The byte-bounded LRU cache of rendered tiles (core/app/tile_proxy.py). */
module TileCache {
  import opened Wrappers

  /** Time in microseconds; a cached tile is served for less than `TTL`. */
  const TTL: int := 60_000_000

  newtype Byte = x: int | 0 <= x < 256

  type Body = seq<Byte>

  /** `K` is the cache key, URL and sorted parameters; only its equality matters. */
  datatype Entry<K> = Entry(key: K, storedAt: int, body: Body)

  function Total<K>(entries: seq<Entry<K>>): nat {
    if entries == [] then 0 else Total(entries[..|entries| - 1]) + |entries[|entries| - 1].body|
  }

  predicate Has<K(==)>(entries: seq<Entry<K>>, key: K) {
    exists i :: 0 <= i < |entries| && entries[i].key == key
  }

  ghost predicate DistinctKeys<K>(entries: seq<Entry<K>>) {
    forall i, j :: 0 <= i < j < |entries| ==> entries[i].key != entries[j].key
  }

  /** Entries are never other than the last ones stored for their keys. */
  ghost predicate LastStored<K>(entries: seq<Entry<K>>, stored: map<K, Entry<K>>) {
    forall i :: 0 <= i < |entries| ==> entries[i].key in stored && stored[entries[i].key] == entries[i]
  }

  function Without<K(==)>(entries: seq<Entry<K>>, i: nat): seq<Entry<K>>
    requires i < |entries|
  {
    entries[..i] + entries[i + 1..]
  }

  function Position<K(==)>(entries: seq<Entry<K>>, key: K): (i: nat)
    ensures i <= |entries|
    ensures i < |entries| ==> entries[i].key == key
    ensures i == |entries| ==> !Has(entries, key)
    ensures forall j :: 0 <= j < i ==> entries[j].key != key
  {
    if entries == [] then 0
    else
      var i := Position(entries[..|entries| - 1], key);
      var init := entries[..|entries| - 1];
      assert i < |init| ==> entries[i] == init[i];
      assert forall j :: 0 <= j < i ==> entries[j] == init[j];
      if i < |init| then i
      else
        if entries[|init|].key == key then |init| else |entries|
  }

  /** The key is cached and its entry is younger than `TTL`. */
  predicate Fresh<K(==)>(entries: seq<Entry<K>>, key: K, now: int) {
    Position(entries, key) < |entries| && now - entries[Position(entries, key)].storedAt < TTL
  }

  /** The entries with this key removed. */
  function Drop<K(==)>(entries: seq<Entry<K>>, key: K): seq<Entry<K>> {
    var i := Position(entries, key);
    if i < |entries| then Without(entries, i) else entries
  }

  /** The entry at `i` was served and moved behind the others, or it was a minute old and removed. */
  ghost predicate ServedIf<K>(before: seq<Entry<K>>, i: nat, now: int, hit: Option<Body>, after: seq<Entry<K>>)
    requires i < |before|
  {
    if now - before[i].storedAt < 60_000_000
    then hit == Some(before[i].body) && after == before[..i] + before[i + 1..] + [before[i]]
    else hit == None && after == before[..i] + before[i + 1..]
  }

  lemma ServedOne<K>(before: seq<Entry<K>>, i: nat, now: int)
    requires DistinctKeys(before) && i < |before|
    ensures forall j :: 0 <= j < |before| && before[j].key == before[i].key ==> j == i
    ensures now - before[i].storedAt < TTL ==>
      ServedIf(before, i, now, Some(before[i].body), Without(before, i) + [before[i]])
    ensures now - before[i].storedAt >= TTL ==> ServedIf(before, i, now, None, Without(before, i))
  {
  }

  /** The bytes of the entries from position `k` on. */
  function TotalFrom<K>(entries: seq<Entry<K>>, k: nat): nat
    requires k <= |entries|
    decreases |entries| - k
  {
    if k == |entries| then 0 else |entries[k].body| + TotalFrom(entries, k + 1)
  }

  lemma {:induction false} TotalFromIs<K>(entries: seq<Entry<K>>, k: nat)
    requires k <= |entries|
    ensures TotalFrom(entries, k) == Total(entries[k..])
    decreases |entries| - k
  {
    if k < |entries| {
      TotalFromIs(entries, k + 1);
      assert entries[k..] == [entries[k]] + entries[k + 1..];
      TotalConcat([entries[k]], entries[k + 1..]);
      TotalOne(entries[k]);
    }
  }

  /** `d` is the shortest eviction from the least recently used end that fits the budget. */
  ghost predicate ShortestEviction<K>(entries: seq<Entry<K>>, d: nat, budget: int) {
    && d <= |entries|
    && TotalFrom(entries, d) <= budget
    && forall k :: 0 <= k < d ==> TotalFrom(entries, k) > budget
  }

  /** `after` is what the shortest sufficient eviction leaves of `base`. */
  ghost predicate Evicted<K>(base: seq<Entry<K>>, after: seq<Entry<K>>, budget: int) {
    exists d: nat :: ShortestEviction(base, d, budget) && after == base[d..]
  }

  lemma {:induction false} TotalConcat<K>(a: seq<Entry<K>>, b: seq<Entry<K>>)
    ensures Total(a + b) == Total(a) + Total(b)
  {
    if b == [] {
      assert a + b == a;
    } else {
      assert (a + b)[..|a + b| - 1] == a + b[..|b| - 1];
      TotalConcat(a, b[..|b| - 1]);
    }
  }

  lemma TotalOne<K>(e: Entry<K>)
    ensures Total([e]) == |e.body|
  {
    assert [e][..0] == [];
  }

  /** The newest entry alone is within the budget. */
  lemma NewestFits<K>(base: seq<Entry<K>>, d: nat, budget: int)
    requires d < |base| && |base[|base| - 1].body| <= budget && TotalFrom(base, d) > budget
    ensures d + 1 < |base|
  {
    assert TotalFrom(base, |base|) == 0;
  }

  lemma TotalWithout<K>(entries: seq<Entry<K>>, i: nat)
    requires i < |entries|
    ensures Total(Without(entries, i)) == Total(entries) - |entries[i].body|
  {
    assert entries == entries[..i] + ([entries[i]] + entries[i + 1..]);
    TotalConcat(entries[..i], [entries[i]] + entries[i + 1..]);
    TotalConcat([entries[i]], entries[i + 1..]);
    TotalConcat(entries[..i], entries[i + 1..]);
    TotalOne(entries[i]);
  }

  lemma WithoutKeeps<K>(entries: seq<Entry<K>>, i: nat, stored: map<K, Entry<K>>)
    requires i < |entries| && DistinctKeys(entries) && LastStored(entries, stored)
    ensures DistinctKeys(Without(entries, i)) && LastStored(Without(entries, i), stored)
    ensures !Has(Without(entries, i), entries[i].key)
  {
    var rest := Without(entries, i);
    forall k | 0 <= k < |rest|
      ensures rest[k] == entries[if k < i then k else k + 1]
    {
    }
  }

  lemma AppendKeeps<K>(entries: seq<Entry<K>>, e: Entry<K>, stored: map<K, Entry<K>>)
    requires DistinctKeys(entries) && !Has(entries, e.key)
    requires LastStored(entries, stored)
    ensures DistinctKeys(entries + [e]) && LastStored(entries + [e], stored[e.key := e])
  {
    assert forall i :: 0 <= i < |entries| ==> (entries + [e])[i] == entries[i] && entries[i].key != e.key;
  }

  lemma SuffixKeeps<K>(entries: seq<Entry<K>>, d: nat, stored: map<K, Entry<K>>)
    requires d <= |entries| && DistinctKeys(entries) && LastStored(entries, stored)
    ensures DistinctKeys(entries[d..]) && LastStored(entries[d..], stored)
  {
  }

  class Cache<K(==)> {
    /** Least recently used first. */
    var entries: seq<Entry<K>>
    var bytes: int
    /** The last entry ever stored under each key. */
    ghost var stored: map<K, Entry<K>>

    ghost predicate Valid()
      reads this
    {
      bytes == Total(entries) && DistinctKeys(entries) && LastStored(entries, stored)
    }

    constructor ()
      ensures Valid() && entries == [] && stored == map[]
    {
      entries, bytes, stored := [], 0, map[];
    }

    method Clear()
      modifies this
      ensures Valid() && entries == [] && stored == old(stored)
    {
      entries, bytes := [], 0;
    }

    /** The cache part of a fetch: a fresh tile is served and becomes the most recently used, a
        stale one is removed. */
    method Lookup(key: K, now: int) returns (hit: Option<Body>)
      requires Valid()
      modifies this`entries, this`bytes
      ensures Valid() && bytes <= old(bytes)
      ensures hit.Some? <==> Fresh(old(entries), key, now)
      // what is served is the last tile stored for the key
      ensures hit.Some? ==> key in stored && hit.value == stored[key].body && now - stored[key].storedAt < TTL
      ensures hit.Some? ==> entries == Drop(old(entries), key) + [stored[key]]
      ensures hit.None? ==> entries == Drop(old(entries), key) && !Has(entries, key)
      // on the entries: served if and only if stored less than a minute ago, and then the most recent
      ensures forall i :: 0 <= i < |old(entries)| && old(entries)[i].key == key ==>
        ServedIf(old(entries), i, now, hit, entries)
    {
      var i := Position(entries, key);
      if i == |entries| {
        return None;
      }
      var e := entries[i];
      ServedOne(entries, i, now);
      TotalWithout(entries, i);
      WithoutKeeps(entries, i, stored);
      if now - e.storedAt < TTL {
        AppendKeeps(Without(entries, i), e, stored);
        TotalConcat(Without(entries, i), [e]);
        TotalOne(e);
        assert stored[e.key := e] == stored;
        entries := Without(entries, i) + [e];
        return Some(e.body);
      }
      entries := Without(entries, i);
      bytes := bytes - |e.body|;
      return None;
    }

    /** `_CACHE.pop(key, None)` with its bytes. */
    method Remove(key: K)
      requires Valid()
      modifies this`entries, this`bytes
      ensures Valid() && entries == Drop(old(entries), key) && !Has(entries, key)
    {
      var i := Position(entries, key);
      if i < |entries| {
        TotalWithout(entries, i);
        WithoutKeeps(entries, i, stored);
        bytes := bytes - |entries[i].body|;
        entries := Without(entries, i);
      }
    }

    method Append(e: Entry<K>)
      requires Valid() && !Has(entries, e.key)
      modifies this
      ensures Valid() && entries == old(entries) + [e] && stored == old(stored)[e.key := e]
    {
      AppendKeeps(entries, e, stored);
      TotalConcat(entries, [e]);
      TotalOne(e);
      entries, bytes, stored := entries + [e], bytes + |e.body|, stored[e.key := e];
    }

    /** Stores a tile that fits the budget, then evicts from the least recently used end. */
    method Store(key: K, content: Body, budget: int, now: int)
      requires Valid()
      modifies this
      ensures Valid()
      ensures |content| > budget ==> entries == old(entries) && bytes == old(bytes) && stored == old(stored)
      ensures |content| <= budget ==> stored == old(stored)[key := Entry(key, now, content)]
      ensures |content| <= budget ==> bytes <= budget
      ensures |content| <= budget ==> Evicted(Drop(old(entries), key) + [Entry(key, now, content)], entries, budget)
      // the tile survives its own store
      ensures |content| <= budget ==> entries != [] && entries[|entries| - 1] == Entry(key, now, content)
    {
      if |content| <= budget {
        StoreFitting(Entry(key, now, content), budget);
      }
    }

    /** The branch of `Store` for a tile within the budget. */
    method StoreFitting(e: Entry<K>, budget: int)
      requires Valid() && |e.body| <= budget
      modifies this
      ensures Valid() && stored == old(stored)[e.key := e] && bytes <= budget
      ensures entries != [] && entries[|entries| - 1] == e
      ensures Evicted(Drop(old(entries), e.key) + [e], entries, budget)
    {
      Place(e);
      Evict(entries, budget);
    }

    /** The entry replaces any other of its key and becomes the most recently used. */
    method Place(e: Entry<K>)
      requires Valid()
      modifies this
      ensures Valid() && entries == Drop(old(entries), e.key) + [e] && stored == old(stored)[e.key := e]
      ensures entries != [] && entries[|entries| - 1] == e
    {
      Remove(e.key);
      Append(e);
    }

    /** `popitem(last=False)` until the budget is met. */
    method Evict(ghost base: seq<Entry<K>>, budget: int)
      requires Valid() && entries == base && base != [] && |base[|base| - 1].body| <= budget
      modifies this`entries, this`bytes
      ensures Valid() && bytes <= budget && entries != [] && entries[|entries| - 1] == base[|base| - 1]
      ensures Evicted(base, entries, budget)
    {
      ghost var d: nat := 0;
      var left, total := entries, bytes;
      TotalFromIs(base, 0);
      assert base[0..] == base;
      while total > budget && left != []
        invariant d < |base| && left == base[d..] && total == TotalFrom(base, d)
        invariant forall k :: 0 <= k < d ==> TotalFrom(base, k) > budget
        decreases |base| - d
      {
        NewestFits(base, d, budget);
        total := total - |left[0].body|;
        left := left[1..];
        d := d + 1;
      }
      TotalFromIs(base, d);
      SuffixKeeps(base, d, stored);
      assert ShortestEviction(base, d, budget);
      entries, bytes := left, total;
    }

    /** What other requests do to the cache meanwhile, one atomic step after the other. */
    method Others(steps: seq<CacheStep<K>>, budget: int)
      requires Valid()
      modifies this
      ensures Valid() && (old(bytes) <= budget ==> bytes <= budget)
      ensures steps == [] ==> entries == old(entries) && stored == old(stored)
    {
      for i := 0 to |steps|
        invariant Valid() && (old(bytes) <= budget ==> bytes <= budget)
        invariant i == 0 ==> entries == old(entries) && stored == old(stored)
      {
        match steps[i]
        case Find(key, now) =>
          var _ := Lookup(key, now);
        case Keep(key, body, now) =>
          Store(key, body, budget, now);
        case Wipe =>
          Clear();
      }
    }

    /** A fetch with everything the outside decides: what others do between look-up and store, the
        concurrency slot, TiTiler's answer and the clock before and after. A tile answered from
        the cache is the last one stored for its key, less than `TTL` old; otherwise the answer is
        TiTiler's, and a 200 is stored on top of what the others left, `mid`. */
    method FetchTile(key: K, meanwhile: seq<CacheStep<K>>, slotFree: bool, upstream: Upstream, budget: int,
                     before: int, after: int)
      returns (r: Reply, ghost mid: seq<Entry<K>>)
      requires Valid()
      modifies this
      ensures Valid()
      ensures Fresh(old(entries), key, before) ==> r == Tile(200, old(stored)[key].body) && stored == old(stored)
      ensures Fresh(old(entries), key, before) ==> entries == Drop(old(entries), key) + [stored[key]]
      ensures !Fresh(old(entries), key, before) ==> r == FromUpstream(slotFree, upstream)
      ensures !Fresh(old(entries), key, before) ==> StoredOver(mid, key, r, budget, after, entries)
      ensures !Fresh(old(entries), key, before) && Kept(r, budget) ==>
        key in stored && stored[key] == Entry(key, after, r.body)
      ensures !Fresh(old(entries), key, before) && meanwhile == [] ==> mid == Drop(old(entries), key)
      // under a fixed budget the cache stays within it
      ensures old(bytes) <= budget ==> bytes <= budget
    {
      mid := entries;
      var hit := Lookup(key, before);
      if hit.Some? {
        r := Tile(200, hit.value);
        return;
      }
      Others(meanwhile, budget);
      mid := entries;
      if !slotFree {
        r := Busy;
        return;
      }
      match upstream
      case Broken =>
        r := Unreachable;
      case Answer(status, body) =>
        if status == 200 {
          Store(key, body, budget, after);
        }
        r := Tile(status, body);
    }
  }

  /** A step of another request: its look-up or its store, or a clearing. */
  datatype CacheStep<K> = Find(key: K, now: int) | Keep(key: K, body: Body, now: int) | Wipe

  /** A success within the budget becomes the most recent entry, evicting the shortest front; any
      other answer leaves the cache alone. */
  ghost predicate StoredOver<K>(mid: seq<Entry<K>>, key: K, r: Reply, budget: int, now: int, after: seq<Entry<K>>) {
    if Kept(r, budget) then
      && after != [] && after[|after| - 1] == Entry(key, now, r.body)
      && Evicted(Drop(mid, key) + [Entry(key, now, r.body)], after, budget)
    else after == mid
  }

  /** TiTiler's side: an answer, or an HTTP error. */
  datatype Upstream = Answer(status: int, body: Body) | Broken

  function FromUpstream(slotFree: bool, upstream: Upstream): Reply {
    if !slotFree then Busy
    else
      match upstream
      case Broken => Unreachable
      case Answer(status, body) => Tile(status, body)
  }

  /** The answer is one the cache keeps: a success within the budget. */
  predicate Kept(r: Reply, budget: int) {
    r.Tile? && r.status == 200 && |r.body| <= budget
  }

  /** A fetch that misses, case by case: no slot, no answer, or the answer as it is; of the answers only a
      200 that fits the budget is kept. */
  lemma MissHolds(slotFree: bool, status: int, body: Body, budget: int)
    ensures FromUpstream(false, Broken) == FromUpstream(false, Answer(status, body)) == Busy
    ensures FromUpstream(true, Broken) == Unreachable && FromUpstream(true, Answer(status, body)) == Tile(status, body)
    ensures Kept(FromUpstream(slotFree, Answer(status, body)), budget) <==>
      slotFree && status == 200 && |body| <= budget
    ensures !Kept(FromUpstream(slotFree, Broken), budget)
  {
  }

  datatype Reply = Tile(status: int, body: Body) | Busy | Unreachable
}
