/** Retention of the audit log: archive a prefix of each chain, then delete it
    (core/app/audit/retention.py). */
module AuditRetention {
  import opened Wrappers
  import opened Seqs
  import opened AuditChain
  import opened AuditLog
  import opened AuditArchives
  import opened AuditStore

  const MAX_ROWS_PER_PASS: nat := 5000
  const DAY: int := 86_400_000_000

  function Cutoff(now: int, days: int): int {
    now - days * DAY
  }

  /** How an upload ends; one that raises may still have stored the object. */
  datatype Put = Stored | Fails(stored: bool)

  datatype Result = Deleted(n: nat) | UploadFailed(tenant: string)

  /** Number of rows up to and including the last stale one. */
  function StaleCount(chain: seq<Row>, cutoff: int): (n: nat)
    ensures n <= |chain|
    ensures n > 0 ==> chain[n - 1].covered.created < cutoff
    ensures forall i :: n <= i < |chain| ==> chain[i].covered.created >= cutoff
  {
    if chain == [] then 0
    else if chain[|chain| - 1].covered.created < cutoff then |chain|
    else StaleCount(chain[..|chain| - 1], cutoff)
  }

  /** How many rows one pass takes from the front. */
  function PassCount(chain: seq<Row>, cutoff: int): (n: nat)
    ensures n <= |chain|
  {
    var stale := StaleCount(chain, cutoff);
    if stale <= MAX_ROWS_PER_PASS then stale else MAX_ROWS_PER_PASS
  }

  // ---------------------------------------------------------------- deleting a prefix

  /** `DELETE WHERE tenant AND chain_seq BETWEEN first AND last`. */
  predicate InRange(t: string, first: int, last: int, r: Row) {
    r.covered.tenant == t && r.chainSeq.Some? && first <= r.chainSeq.value <= last
  }

  function Outside(t: string, first: int, last: int): Row -> bool {
    (r: Row) => !InRange(t, first, last, r)
  }

  lemma RemoveForOthers(rows: seq<Row>, t: string, first: int, last: int, kept: seq<Row>, u: string)
    requires TenantOk(rows, u) && u != t
    requires kept == Filter(rows, Outside(t, first, last))
    ensures TenantOk(kept, u) && Chain(kept, u) == Chain(rows, u) && Pending(kept, u) == Pending(rows, u)
  {
    var c, p := Chain(rows, u), Pending(rows, u);
    KeptRows(rows, t, first, last, kept);
    assert IsChain(kept, u, c);
    assert IsPending(kept, u, p);
    ChainIs(kept, u, c);
    PendingIs(kept, u, p);
  }

  lemma KeptRows(rows: seq<Row>, t: string, first: int, last: int, kept: seq<Row>)
    requires kept == Filter(rows, Outside(t, first, last))
    ensures forall r :: r in kept <==> r in rows && !InRange(t, first, last, r)
    ensures forall i :: 0 <= i < |kept| ==> kept[i] in rows && !InRange(t, first, last, kept[i])
  {
    forall i | 0 <= i < |kept|
      ensures kept[i] in rows && !InRange(t, first, last, kept[i])
    {
      assert kept[i] in kept && Outside(t, first, last)(kept[i]);
    }
    forall r
      ensures r in kept <==> r in rows && !InRange(t, first, last, r)
    {
      assert Outside(t, first, last)(r) <==> !InRange(t, first, last, r);
    }
  }

  /** The rows of a prefix of a chain are exactly those in its range of numbers. */
  lemma PrefixIsRange(c: seq<Row>, n: nat, t: string, k: nat)
    requires ChainOk(c) && 0 < n <= |c| && k < |c|
    requires forall i :: 0 <= i < |c| ==> SealedOf(t, c[i])
    ensures InRange(t, c[0].chainSeq.value, c[n - 1].chainSeq.value, c[k]) <==> k < n
  {
    ChainSeqs(c, k);
    ChainSeqs(c, n - 1);
  }

  lemma RemovePrefix(rows: seq<Row>, t: string, n: nat, kept: seq<Row>, c: seq<Row>)
    requires IsChain(rows, t, c) && ChainOk(c) && 0 < n <= |c|
    requires kept == Filter(rows, Outside(t, c[0].chainSeq.value, c[n - 1].chainSeq.value))
    ensures IsChain(kept, t, c[n..])
  {
    var first, last, s := c[0].chainSeq.value, c[n - 1].chainSeq.value, c[n..];
    KeptRows(rows, t, first, last, kept);
    forall k | 0 <= k < |s|
      ensures s[k] in kept && SealedOf(t, s[k])
    {
      assert s[k] == c[n + k];
      PrefixIsRange(c, n, t, n + k);
    }
    forall i | 0 <= i < |kept| && SealedOf(t, kept[i])
      ensures kept[i] in s
    {
      var j :| 0 <= j < |rows| && rows[j] == kept[i];
      assert rows[j] in c;
      var k :| 0 <= k < |c| && c[k] == kept[i];
      PrefixIsRange(c, n, t, k);
      assert s[k - n] == kept[i];
    }
  }

  lemma RemoveKeepsPending(rows: seq<Row>, t: string, first: int, last: int, kept: seq<Row>, p: seq<Row>)
    requires IsPending(rows, t, p) && kept == Filter(rows, Outside(t, first, last))
    requires forall r :: r in rows ==> (r.hash.Some? <==> r.chainSeq.Some?)
    ensures IsPending(kept, t, p)
  {
    KeptRows(rows, t, first, last, kept);
  }

  lemma RemoveKeepsIds(rows: seq<Row>, q: Row -> bool)
    requires DistinctIds(rows)
    ensures DistinctIds(Filter(rows, q))
  {
    var id := (r: Row) => r.id;
    FilterDistinct(rows, q, id);
    var f := Filter(rows, q);
    assert forall i, j :: 0 <= i < j < |f| ==> id(f[i]) != id(f[j]);
  }

  /** Deleting the range of a prefix cuts that prefix from the chain and nothing else. */
  lemma DeleteOne(rows: seq<Row>, t: string, n: nat, kept: seq<Row>)
    requires TableOk(rows) && 0 < n <= |Chain(rows, t)| && Numbered(Chain(rows, t)[0]) &&
      Numbered(Chain(rows, t)[n - 1])
    requires kept == Filter(rows, Outside(t, Chain(rows, t)[0].chainSeq.value, Chain(rows, t)[n - 1].chainSeq.value))
    ensures TableOk(kept) && OthersSame(rows, kept, t)
    ensures Chain(kept, t) == Chain(rows, t)[n..] && Pending(kept, t) == Pending(rows, t)
  {
    assert TenantOk(rows, t);
    var c, p := Chain(rows, t), Pending(rows, t);
    var first, last := c[0].chainSeq.value, c[n - 1].chainSeq.value;
    forall r | r in rows
      ensures r.hash.Some? <==> r.chainSeq.Some?
    {
      var i :| 0 <= i < |rows| && rows[i] == r;
    }
    RemovePrefix(rows, t, n, kept, c);
    RemoveKeepsPending(rows, t, first, last, kept, p);
    SuffixIsChain(c, n);
    ChainIs(kept, t, c[n..]);
    PendingIs(kept, t, p);
    KeptRows(rows, t, first, last, kept);
    RemoveKeepsIds(rows, Outside(t, first, last));
    forall u
      ensures TenantOk(kept, u)
      ensures u != t ==> Chain(kept, u) == Chain(rows, u) && Pending(kept, u) == Pending(rows, u)
    {
      if u != t {
        assert TenantOk(rows, u);
        RemoveForOthers(rows, t, first, last, kept, u);
      }
    }
  }

  /** `last` is the number of the last stale one of the first `i` rows. */
  ghost predicate LastIs(chain: seq<Row>, i: nat, cutoff: int, last: Option<int>)
    requires i <= |chain|
  {
    var m := StaleCount(chain[..i], cutoff);
    if m == 0 then last.None? else last.Some? && last == chain[m - 1].chainSeq
  }

  /** Along a chain a stale row has a greater number than the last stale one before it. */
  lemma LastStep(chain: seq<Row>, i: nat, cutoff: int, last: Option<int>)
    requires ChainOk(chain) && i < |chain| && LastIs(chain, i, cutoff, last)
    ensures Numbered(chain[i]) && (last.Some? ==> last.value < chain[i].chainSeq.value)
    ensures LastIs(chain, i + 1, cutoff, if chain[i].covered.created < cutoff then chain[i].chainSeq else last)
  {
    var m := StaleCount(chain[..i], cutoff);
    assert chain[..i + 1][..i] == chain[..i];
    assert Numbered(chain[i]);
    if m > 0 {
      assert Numbered(chain[m - 1]);
      ChainSeqs(chain, i);
      ChainSeqs(chain, m - 1);
    }
  }

  // ---------------------------------------------------------------- one tenant

  /** Rows of a tenant's chain that a pass archives. */
  function Front(v: View, cutoff: int): (r: seq<Row>)
    ensures |r| <= |Full(v)|
  {
    Full(v)[..PassCount(Full(v), cutoff)]
  }

  /** The rows that stay. */
  function Back(v: View, cutoff: int): seq<Row> {
    Full(v)[PassCount(Full(v), cutoff)..]
  }

  lemma FrontAndBack(v: View, cutoff: int)
    ensures Front(v, cutoff) + Back(v, cutoff) == Full(v)
    ensures |Front(v, cutoff)| == PassCount(Full(v), cutoff)
  {
  }

  /** The objects once the front is stored. */
  function WithFront(v: View, t: string, cutoff: int): Bucket {
    if Front(v, cutoff) == [] then v.objects else v.objects[KeyFor(t, Front(v, cutoff)) := Front(v, cutoff)]
  }

  /** Sealed, and exactly the front moved from the table to one object. */
  function AfterPass(v: View, t: string, cutoff: int): View {
    var keys := if Front(v, cutoff) == [] then [] else [KeyFor(t, Front(v, cutoff))];
    View(Back(v, cutoff), [], v.keys + keys, WithFront(v, t, cutoff))
  }

  /** The upload failed: sealed, nothing deleted, the object stored all the same or not. */
  ghost predicate Refused(v: View, v': View, t: string, cutoff: int) {
    v' == View(Full(v), [], v.keys, v'.objects) && (v'.objects == v.objects || v'.objects == WithFront(v, t, cutoff))
  }

  /** The transaction was rolled back: the table is as before, the bucket perhaps not. */
  ghost predicate RolledBack(v: View, v': View, t: string, cutoff: int) {
    v' == v.(objects := v'.objects) && (v'.objects == v.objects || v'.objects == WithFront(v, t, cutoff))
  }

  /** Number of rows deleted under these keys. */
  function DeletedUnder(keys: seq<Key>): int {
    if keys == [] then 0
    else DeletedUnder(keys[..|keys| - 1]) + keys[|keys| - 1].last - keys[|keys| - 1].first + 1
  }

  class Retention {
    const store: Store
    var bucket: Bucket
    /** Keys of the archives whose rows were deleted. */
    ghost var log: seq<Key>

    ghost function Now(): Ledger
      reads this, store
    {
      Ledger(store.rows, log, bucket)
    }

    ghost predicate Valid()
      reads this, store
    {
      store.Valid() && LedgerOk(log, bucket)
    }

    constructor (store: Store)
      requires store.Valid()
      ensures Valid() && this.store == store && Now() == Ledger(store.rows, [], map[])
    {
      this.store, bucket, log := store, map[], [];
    }

    /** Largest number of a stale row, as `SELECT max(chain_seq)`. */
    method LastStale(chain: seq<Row>, cutoff: int) returns (last: Option<int>)
      requires ChainOk(chain)
      ensures last.None? <==> StaleCount(chain, cutoff) == 0
      ensures last.Some? ==> last == chain[StaleCount(chain, cutoff) - 1].chainSeq
    {
      last := None;
      for i := 0 to |chain|
        invariant LastIs(chain, i, cutoff, last)
      {
        LastStep(chain, i, cutoff, last);
        if chain[i].covered.created < cutoff && (last.None? || chain[i].chainSeq.value > last.value) {
          last := chain[i].chainSeq;
        }
      }
      assert chain[..|chain|] == chain;
    }

    /** The rows one pass takes from a sealed tenant: up to the largest stale number, at most
        MAX_ROWS_PER_PASS of them. */
    method SelectRows(t: string, cutoff: int) returns (batch: seq<Row>)
      requires store.Valid()
      ensures batch == Chain(store.rows, t)[..PassCount(Chain(store.rows, t), cutoff)]
    {
      var chain := store.SelectChain(t);
      var last := LastStale(chain, cutoff);
      if last.None? {
        return [];
      }
      var n := CountUpTo(chain, last.value);
      assert forall i :: 0 <= i < |chain| ==> Numbered(chain[i]);
      StaleByNumber(chain, cutoff, n);
      batch := chain[..if n <= MAX_ROWS_PER_PASS then n else MAX_ROWS_PER_PASS];
    }

    /** Upload, then delete the same range; a failed upload deletes nothing. */
    method ArchiveThenDelete(t: string, batch: seq<Row>, put: Put) returns (r: Result)
      requires Valid() && batch != [] && |batch| <= |Chain(store.rows, t)|
      requires batch == Chain(store.rows, t)[..|batch|]
      modifies this, store
      ensures Valid() && OthersSame(old(store.rows), store.rows, t)
      ensures Pending(store.rows, t) == Pending(old(store.rows), t)
      ensures bucket == if put == Fails(false) then old(bucket) else old(bucket)[KeyFor(t, batch) := batch]
      ensures put.Stored? ==> r == Deleted(|batch|) && Chain(store.rows, t) == Chain(old(store.rows), t)[|batch|..]
      ensures put.Stored? ==> log == old(log) + [KeyFor(t, batch)]
      ensures put.Fails? ==> r == UploadFailed(t) && store.rows == old(store.rows) && log == old(log)
      ensures KeyFor(t, batch).last - KeyFor(t, batch).first + 1 == |batch|
    {
      var key := KeyFor(t, batch);
      var kept := Filter(store.rows, Outside(t, key.first, key.last));
      DeleteFront(store.rows, t, batch, kept);
      LedgerAfterPut(log, bucket, key, batch);
      if put != Fails(false) {
        bucket := bucket[key := batch];
      }
      if put.Fails? {
        return UploadFailed(t);
      }
      log := log + [key];
      store.rows := kept;
      r := Deleted(|batch|);
    }

    /** One tenant: seal, archive the front of the chain, and only then delete it. */
    method RetainTenant(t: string, cutoff: int, put: Put) returns (r: Result)
      requires Valid()
      modifies this, store
      ensures Valid()
      ensures r.Deleted? ==> PassDone(old(Now()), Now(), t, cutoff)
      ensures r.Deleted? ==> r.n <= 5000
      ensures r.Deleted? ==> r.n == |Front(ViewOf(old(Now()), t), cutoff)| == DeletedUnder(log) - DeletedUnder(old(log))
      ensures r.UploadFailed? ==> r.tenant == t && put.Fails?
      ensures r.UploadFailed? ==> Refused(ViewOf(old(Now()), t), ViewOf(Now(), t), t, cutoff)
      ensures forall u :: u != t ==> Kept(old(Now()), Now(), u)
    {
      ghost var w := Now();
      var sealed := store.SealAll(t);
      var batch := SelectRows(t, cutoff);
      SealedFront(w, store.rows, t, cutoff, batch);
      if batch == [] {
        NothingToRetain(w, Now(), t, cutoff);
        return Deleted(0);
      }
      ghost var rows1 := store.rows;
      r := ArchiveThenDelete(t, batch, put);
      OthersSameTwice(w.rows, rows1, store.rows, t);
      BatchRetained(w, Now(), t, cutoff, batch, put);
    }

    /** Tenants that hold a stale row, each once. */
    method StaleTenants(cutoff: int) returns (ts: seq<string>)
      ensures forall t :: t in ts <==> HasStale(store.rows, t, cutoff)
      ensures NoDup(ts)
    {
      ts := [];
      for i := 0 to |store.rows|
        invariant NoDup(ts)
        invariant forall t :: t in ts <==> HasStale(store.rows[..i], t, cutoff)
      {
        ghost var before := ts;
        var row := store.rows[i];
        assert store.rows[..i + 1] == store.rows[..i] + [row];
        if row.covered.created < cutoff && row.covered.tenant !in ts {
          ts := ts + [row.covered.tenant];
        }
        HasStaleStep(store.rows[..i], row, cutoff);
      }
      assert store.rows[..|store.rows|] == store.rows;
    }

    /** `apply_retention` inside its transaction: either every tenant with a stale row has lost
        exactly its front, or it stops at the first failed upload. */
    method ApplyRetention(days: int, now: int, upload: string -> Put) returns (r: Result)
      requires Valid()
      modifies this, store
      ensures Valid()
      ensures days <= 0 ==> r == Deleted(0) && Now() == old(Now())
      ensures days > 0 ==> Passed(old(Now()), Now(), Cutoff(now, days), r)
      // on the rows: a tenant all of whose rows are younger than so many days is not touched
      ensures days > 0 ==> forall t :: AllSince(old(store.rows), t, now - days * 86_400_000_000) ==>
        Kept(old(Now()), Now(), t)
      ensures days > 0 && r.UploadFailed? ==> upload(r.tenant).Fails?
    {
      if days <= 0 {
        return Deleted(0);
      }
      ghost var w := Now();
      r := RetainAll(Cutoff(now, days), upload);
      YoungTenantsKept(w, Now(), now, days);
    }

    method RetainAll(cutoff: int, upload: string -> Put) returns (r: Result)
      requires Valid()
      modifies this, store
      ensures Valid() && Passed(old(Now()), Now(), cutoff, r)
      ensures r.UploadFailed? ==> upload(r.tenant).Fails?
    {
      ghost var w := Now();
      var tenants := StaleTenants(cutoff);
      r := RetainEach(tenants, cutoff, upload);
      PassResult(w, Now(), tenants, cutoff, r);
    }

    /** The tenants of a pass, one after the other, until an upload fails. */
    method RetainEach(tenants: seq<string>, cutoff: int, upload: string -> Put) returns (r: Result)
      requires Valid() && NoDup(tenants)
      modifies this, store
      ensures Valid() && LoopEnded(old(Now()), Now(), tenants, cutoff, r)
      ensures r.UploadFailed? ==> upload(r.tenant).Fails?
    {
      ghost var w := Now();
      var deleted: nat := 0;
      NoneDone(w, tenants, cutoff);
      for i := 0 to |tenants|
        invariant Valid() && DoneUpTo(w, Now(), tenants, i, cutoff, deleted)
      {
        ghost var before := Now();
        r := RetainTenant(tenants[i], cutoff, upload(tenants[i]));
        if r.UploadFailed? {
          StoppedAt(w, before, Now(), tenants, i, cutoff, deleted, r);
          return r;
        }
        OneMoreDone(w, before, Now(), tenants, i, cutoff, deleted, r);
        deleted := deleted + r.n;
      }
      r := Deleted(deleted);
    }

    /** The nightly job: one transaction around the pass. When an upload fails the table is as
        before, seals included, but what was uploaded stays in the bucket. */
    method RetentionTask(days: int, now: int, upload: string -> Put) returns (r: Result)
      requires Valid() && days > 0
      modifies this, store
      ensures Valid()
      ensures Ended(old(Now()), Now(), Cutoff(now, days), r)
      ensures r.UploadFailed? ==> store.rows == old(store.rows) && log == old(log) && upload(r.tenant).Fails?
      ensures forall t :: AllSince(old(store.rows), t, now - days * 86_400_000_000) ==> Kept(old(Now()), Now(), t)
    {
      ghost var w := Now();
      var rows0 := store.rows;
      ghost var log0 := log;
      r := ApplyRetention(days, now, upload);
      if r.UploadFailed? {
        BackAsBefore(w, Now(), Cutoff(now, days), r);
        store.rows, log := rows0, log0;
        assert Now() == Ledger(w.rows, w.log, bucket);
      }
      YoungTenantsKept(w, Now(), now, days);
    }
  }

  // ---------------------------------------------------------------- a whole pass

  ghost predicate PassDone(w: Ledger, w': Ledger, t: string, cutoff: int) {
    ViewOf(w', t) == AfterPass(ViewOf(w, t), t, cutoff)
  }

  ghost predicate Kept(w: Ledger, w': Ledger, t: string) {
    ViewOf(w', t) == ViewOf(w, t)
  }

  ghost predicate DoneUpTo(w: Ledger, w': Ledger, tenants: seq<string>, n: nat, cutoff: int, deleted: int) {
    && n <= |tenants|
    && (forall j :: 0 <= j < n ==> PassDone(w, w', tenants[j], cutoff))
    && (forall j :: n <= j < |tenants| ==> Kept(w, w', tenants[j]))
    && (forall u :: u !in tenants ==> Kept(w, w', u))
    && deleted == DeletedUnder(w'.log) - DeletedUnder(w.log)
  }

  ghost predicate Stopped(w: Ledger, w': Ledger, tenants: seq<string>, n: nat, cutoff: int) {
    && n < |tenants|
    && (forall j :: 0 <= j < n ==> PassDone(w, w', tenants[j], cutoff))
    && Refused(ViewOf(w, tenants[n]), ViewOf(w', tenants[n]), tenants[n], cutoff)
    && (forall j :: n < j < |tenants| ==> Kept(w, w', tenants[j]))
    && (forall u :: u !in tenants ==> Kept(w, w', u))
  }

  ghost predicate LoopEnded(w: Ledger, w': Ledger, tenants: seq<string>, cutoff: int, r: Result) {
    match r
    case Deleted(n) => DoneUpTo(w, w', tenants, |tenants|, cutoff, n)
    case UploadFailed(t) => exists n: nat :: Stopped(w, w', tenants, n, cutoff) && tenants[n] == t
  }

  lemma NoneDone(w: Ledger, tenants: seq<string>, cutoff: int)
    ensures DoneUpTo(w, w, tenants, 0, cutoff, 0)
  {
  }

  /** Retaining one more tenant leaves those before done and those after as they were. */
  lemma OneMoreDone(w: Ledger, a: Ledger, b: Ledger, tenants: seq<string>, n: nat, cutoff: int, deleted: int, r: Result)
    requires NoDup(tenants) && n < |tenants| && DoneUpTo(w, a, tenants, n, cutoff, deleted)
    requires r.Deleted? && PassDone(a, b, tenants[n], cutoff) && r.n == DeletedUnder(b.log) - DeletedUnder(a.log)
    requires forall u :: u != tenants[n] ==> Kept(a, b, u)
    ensures DoneUpTo(w, b, tenants, n + 1, cutoff, deleted + r.n)
  {
    assert Kept(w, a, tenants[n]);
    OthersStay(w, a, b, tenants, n, cutoff);
  }

  lemma StoppedAt(w: Ledger, a: Ledger, b: Ledger, tenants: seq<string>, n: nat, cutoff: int, deleted: int, r: Result)
    requires NoDup(tenants) && n < |tenants| && DoneUpTo(w, a, tenants, n, cutoff, deleted)
    requires r == UploadFailed(tenants[n]) && Refused(ViewOf(a, tenants[n]), ViewOf(b, tenants[n]), tenants[n], cutoff)
    requires forall u :: u != tenants[n] ==> Kept(a, b, u)
    ensures LoopEnded(w, b, tenants, cutoff, r)
  {
    assert Kept(w, a, tenants[n]);
    OthersStay(w, a, b, tenants, n, cutoff);
    assert Stopped(w, b, tenants, n, cutoff);
  }

  lemma OthersStay(w: Ledger, a: Ledger, b: Ledger, tenants: seq<string>, n: nat, cutoff: int)
    requires NoDup(tenants) && n < |tenants|
    requires forall j :: 0 <= j < n ==> PassDone(w, a, tenants[j], cutoff)
    requires forall j :: n <= j < |tenants| ==> Kept(w, a, tenants[j])
    requires forall u :: u !in tenants ==> Kept(w, a, u)
    requires forall u :: u != tenants[n] ==> Kept(a, b, u)
    ensures forall j :: 0 <= j < n ==> PassDone(w, b, tenants[j], cutoff)
    ensures forall j :: n < j < |tenants| ==> Kept(w, b, tenants[j])
    ensures forall u :: u !in tenants ==> Kept(w, b, u)
  {
    forall j | 0 <= j < n
      ensures PassDone(w, b, tenants[j], cutoff)
    {
      assert PassDone(w, a, tenants[j], cutoff) && Kept(a, b, tenants[j]);
    }
    forall j | n < j < |tenants|
      ensures Kept(w, b, tenants[j])
    {
      assert Kept(w, a, tenants[j]) && Kept(a, b, tenants[j]);
    }
    forall u | u !in tenants
      ensures Kept(w, b, u)
    {
      assert tenants[n] in tenants && Kept(w, a, u) && Kept(a, b, u);
    }
  }

  /** What a whole pass promises before the transaction ends. */
  ghost predicate Passed(w: Ledger, w': Ledger, cutoff: int, r: Result) {
    && (forall t :: !HasStale(w.rows, t, cutoff) ==> Kept(w, w', t))
    && match r
       case Deleted(n) =>
         && n == DeletedUnder(w'.log) - DeletedUnder(w.log)
         && forall t :: HasStale(w.rows, t, cutoff) ==> PassDone(w, w', t, cutoff)
       case UploadFailed(failed) =>
         && HasStale(w.rows, failed, cutoff)
         && Refused(ViewOf(w, failed), ViewOf(w', failed), failed, cutoff)
         && forall t :: HasStale(w.rows, t, cutoff) && t != failed ==> PassDone(w, w', t, cutoff) || Kept(w, w', t)
  }

  lemma PassResult(w: Ledger, w': Ledger, tenants: seq<string>, cutoff: int, r: Result)
    requires LoopEnded(w, w', tenants, cutoff, r)
    requires forall t :: t in tenants <==> HasStale(w.rows, t, cutoff)
    ensures Passed(w, w', cutoff, r)
  {
    match r
    case Deleted(n) =>
      forall t | HasStale(w.rows, t, cutoff)
        ensures PassDone(w, w', t, cutoff)
      {
        var j :| 0 <= j < |tenants| && tenants[j] == t;
      }
    case UploadFailed(failed) =>
      var n: nat :| Stopped(w, w', tenants, n, cutoff) && tenants[n] == failed;
      assert tenants[n] in tenants;
      forall t | HasStale(w.rows, t, cutoff) && t != failed
        ensures PassDone(w, w', t, cutoff) || Kept(w, w', t)
      {
        var j :| 0 <= j < |tenants| && tenants[j] == t;
      }
  }

  /** What a committed or rolled back pass leaves. In the second case every row is still in the
      table, and an object stored on the way holds exactly the front that sealing gives again. */
  ghost predicate Ended(w: Ledger, w': Ledger, cutoff: int, r: Result) {
    && (forall t :: !HasStale(w.rows, t, cutoff) ==> Kept(w, w', t))
    && match r
       case Deleted(n) =>
         && n == DeletedUnder(w'.log) - DeletedUnder(w.log)
         && forall t :: HasStale(w.rows, t, cutoff) ==> PassDone(w, w', t, cutoff)
       case UploadFailed(_) =>
         && w'.rows == w.rows && w'.log == w.log
         && forall t :: HasStale(w.rows, t, cutoff) ==> RolledBack(ViewOf(w, t), ViewOf(w', t), t, cutoff)
  }

  ghost predicate BackFor(w: Ledger, back: Ledger, t: string, cutoff: int) {
    if HasStale(w.rows, t, cutoff) then RolledBack(ViewOf(w, t), ViewOf(back, t), t, cutoff) else Kept(w, back, t)
  }

  lemma BackAsBefore(w: Ledger, w': Ledger, cutoff: int, r: Result)
    requires Passed(w, w', cutoff, r) && r.UploadFailed? && LedgerOk(w'.log, w'.bucket) && LedgerOk(w.log, w.bucket)
    ensures Ended(w, Ledger(w.rows, w.log, w'.bucket), cutoff, r)
    ensures LedgerOk(w.log, w'.bucket)
  {
    var back := Ledger(w.rows, w.log, w'.bucket);
    forall t
      ensures BackFor(w, back, t, cutoff)
    {
      assert HasStale(w.rows, t, cutoff) && t != r.tenant ==> PassDone(w, w', t, cutoff) || Kept(w, w', t);
      assert !HasStale(w.rows, t, cutoff) ==> Kept(w, w', t);
      assert ViewOf(w', t).objects == ViewOf(back, t).objects;
    }
    forall k | k in w.log
      ensures k in w'.bucket
    {
      var t := k.tenant;
      assert BackFor(w, back, t, cutoff);
      assert k in ObjectsOf(w.bucket, t);
      assert k in ObjectsOf(w'.bucket, t);
    }
  }

  ghost predicate HasStale(rows: seq<Row>, t: string, cutoff: int) {
    exists i :: 0 <= i < |rows| && rows[i].covered.tenant == t && rows[i].covered.created < cutoff
  }

  lemma HasStaleStep(rows: seq<Row>, row: Row, cutoff: int)
    ensures forall t :: HasStale(rows + [row], t, cutoff) <==>
      HasStale(rows, t, cutoff) || (row.covered.tenant == t && row.covered.created < cutoff)
  {
    forall t
      ensures HasStale(rows + [row], t, cutoff) <==>
        HasStale(rows, t, cutoff) || (row.covered.tenant == t && row.covered.created < cutoff)
    {
      if HasStale(rows, t, cutoff) {
        var i :| 0 <= i < |rows| && rows[i].covered.tenant == t && rows[i].covered.created < cutoff;
        assert (rows + [row])[i] == rows[i];
      }
      assert (rows + [row])[|rows|] == row;
    }
  }

  // ---------------------------------------------------------------- which rows go

  /** All rows of the tenant were created at this instant or later. */
  ghost predicate AllSince(rows: seq<Row>, t: string, instant: int) {
    forall r :: r in rows && r.covered.tenant == t ==> r.covered.created >= instant
  }

  lemma YoungTenantsKept(w: Ledger, w': Ledger, now: int, days: int)
    requires forall t :: !HasStale(w.rows, t, Cutoff(now, days)) ==> Kept(w, w', t)
    ensures forall t :: AllSince(w.rows, t, now - days * 86_400_000_000) ==> Kept(w, w', t)
  {
    forall t | AllSince(w.rows, t, now - days * 86_400_000_000)
      ensures Kept(w, w', t)
    {
      CutoffIs(now, days);
      assert forall i :: 0 <= i < |w.rows| ==> w.rows[i] in w.rows;
    }
  }

  lemma CutoffIs(now: int, days: int)
    ensures Cutoff(now, days) == now - days * 86_400_000_000
  {
  }

  /** This row, or one behind it, is stale. */
  ghost predicate StaleFrom(s: seq<Row>, i: nat, cutoff: int) {
    exists j :: i <= j < |s| && s[j].covered.created < cutoff
  }

  /** What a pass takes, on the columns: a front of at most 5000 rows; behind or at each of them lies a
      stale row; and below that number no stale row is left. */
  lemma FrontHolds(v: View, cutoff: int)
    ensures Front(v, cutoff) <= Full(v) && |Front(v, cutoff)| <= 5000
    ensures forall i :: 0 <= i < |Front(v, cutoff)| ==> StaleFrom(Full(v), i, cutoff)
    ensures |Front(v, cutoff)| < 5000 ==>
      forall j :: |Front(v, cutoff)| <= j < |Full(v)| ==> Full(v)[j].covered.created >= cutoff
    ensures Front(v, cutoff) + Back(v, cutoff) == Full(v)
  {
    FrontAndBack(v, cutoff);
    var n := StaleCount(Full(v), cutoff);
    if n > 0 {
      assert Full(v)[n - 1].covered.created < cutoff;
    }
  }

  /** An archive lies under its tenant, its first number and its last. */
  lemma KeyHolds(t: string, batch: seq<Row>, first: int, last: int)
    requires batch != [] && batch[0].chainSeq == Some(first) && batch[|batch| - 1].chainSeq == Some(last)
    ensures KeyFor(t, batch) == Key(t, first, last)
  {
  }

  /** If creation follows the chain, no row younger than so many days leaves the table, however the
      transaction ends: it is there with its id, content and payload. */
  lemma YoungRowsStay(w: Ledger, w': Ledger, now: int, days: int, r: Result, row: Row)
    requires TableOk(w.rows) && TableOk(w'.rows) && Ended(w, w', Cutoff(now, days), r)
    requires row in w.rows && row.covered.created >= now - days * 86_400_000_000
    requires FollowsTime(Full(ViewOf(w, row.covered.tenant)))
    ensures exists q :: q in w'.rows && q.id == row.id && q.covered == row.covered && q.payload == row.payload
  {
    var t, cutoff := row.covered.tenant, Cutoff(now, days);
    CutoffIs(now, days);
    if !HasStale(w.rows, t, cutoff) {
      assert Kept(w, w', t);
      SameViewSameRow(w, w', row);
    } else if r.Deleted? {
      assert PassDone(w, w', t, cutoff);
      YoungRowIsBehind(w, w', cutoff, row);
    }
  }

  /** A pass over its tenant leaves a row that is not stale behind the front. */
  lemma YoungRowIsBehind(w: Ledger, w': Ledger, cutoff: int, row: Row)
    requires TableOk(w.rows) && TableOk(w'.rows) && row in w.rows && row.covered.created >= cutoff
    requires PassDone(w, w', row.covered.tenant, cutoff) && FollowsTime(Full(ViewOf(w, row.covered.tenant)))
    ensures exists q :: q in w'.rows && q.id == row.id && q.covered == row.covered && q.payload == row.payload
  {
    var t := row.covered.tenant;
    var full := Full(ViewOf(w, t));
    var n := PlaceInFull(w, row);
    OnlyStaleRowsGo(full, cutoff, n);
    assert Chain(w'.rows, t) == full[PassCount(full, cutoff)..];
    InChain(w'.rows, t, n - PassCount(full, cutoff));
    assert full[n] in w'.rows;
  }

  lemma InChain(rows: seq<Row>, t: string, k: nat)
    requires TableOk(rows) && k < |Chain(rows, t)|
    ensures Chain(rows, t)[k] in rows
  {
    assert TenantOk(rows, t);
  }

  /** Each row of the table has its place in the chain once everything is sealed. */
  lemma PlaceInFull(w: Ledger, row: Row) returns (n: nat)
    requires TableOk(w.rows) && row in w.rows
    ensures
      var full := Full(ViewOf(w, row.covered.tenant));
      n < |full| && full[n].id == row.id && full[n].covered == row.covered && full[n].payload == row.payload
  {
    InOneOf(w.rows, row);
    var chain, pending := Chain(w.rows, row.covered.tenant), Pending(w.rows, row.covered.tenant);
    n := PlaceBehind(chain, pending, Extend(HeadSeq(chain), HeadHash(chain), pending), row);
  }

  lemma PlaceBehind(chain: seq<Row>, pending: seq<Row>, sealed: seq<Row>, row: Row) returns (n: nat)
    requires (row in chain || row in pending) && |sealed| == |pending|
    requires forall k :: 0 <= k < |sealed| ==> sealed[k].id == pending[k].id
    requires forall k :: 0 <= k < |sealed| ==> sealed[k].covered == pending[k].covered
    requires forall k :: 0 <= k < |sealed| ==> sealed[k].payload == pending[k].payload
    ensures
      var full := chain + sealed;
      n < |full| && full[n].id == row.id && full[n].covered == row.covered && full[n].payload == row.payload
  {
    if row in chain {
      n :| 0 <= n < |chain| && chain[n] == row;
    } else {
      var k :| 0 <= k < |pending| && pending[k] == row;
      n := |chain| + k;
    }
  }

  /** A row of the table is sealed or pending. */
  lemma InOneOf(rows: seq<Row>, row: Row)
    requires TableOk(rows) && row in rows
    ensures row in Chain(rows, row.covered.tenant) || row in Pending(rows, row.covered.tenant)
  {
    var t := row.covered.tenant;
    assert TenantOk(rows, t);
    var i :| 0 <= i < |rows| && rows[i] == row;
    if row.hash.Some? { assert SealedOf(t, row); } else { assert PendingOf(t, row); }
  }

  lemma SameViewSameRow(w: Ledger, w': Ledger, row: Row)
    requires TableOk(w.rows) && TableOk(w'.rows) && row in w.rows && Kept(w, w', row.covered.tenant)
    ensures row in w'.rows
  {
    var t := row.covered.tenant;
    InOneOf(w.rows, row);
    assert TenantOk(w'.rows, t);
    assert Chain(w'.rows, t) == Chain(w.rows, t) && Pending(w'.rows, t) == Pending(w.rows, t);
    if row in Chain(w.rows, t) {
      var n :| 0 <= n < |Chain(w'.rows, t)| && Chain(w'.rows, t)[n] == row;
    } else {
      var n :| 0 <= n < |Pending(w'.rows, t)| && Pending(w'.rows, t)[n] == row;
    }
  }

  // ---------------------------------------------------------------- conservation

  /** The front's key holds other rows of an earlier archive. */
  ghost predicate Overwrites(v: View, t: string, cutoff: int) {
    var front := Front(v, cutoff);
    && front != [] && KeyFor(t, front) in v.keys
    && KeyFor(t, front) in v.objects && v.objects[KeyFor(t, front)] != front
  }

  lemma FrontIsNumbered(v: View, t: string, cutoff: int)
    requires ChainOk(v.chain) && Front(v, cutoff) != []
    ensures ChainOk(Full(v))
    ensures |Front(v, cutoff)| == KeyFor(t, Front(v, cutoff)).last - KeyFor(t, Front(v, cutoff)).first + 1
  {
    ExtendKeepsChain(v.chain, v.pending);
    FrontAndBack(v, cutoff);
    PrefixNumbers(Full(v), |Front(v, cutoff)|, t, Front(v, cutoff));
  }

  /** The numbers in the key of a front delimit it. */
  lemma PrefixNumbers(chain: seq<Row>, n: nat, t: string, front: seq<Row>)
    requires ChainOk(chain) && 0 < n <= |chain| && front == chain[..n]
    ensures Numbered(chain[0]) && Numbered(chain[n - 1]) && front[0] == chain[0] && front[n - 1] == chain[n - 1]
    ensures KeyFor(t, front).last - KeyFor(t, front).first + 1 == n
  {
    assert Numbered(chain[0]) && Numbered(chain[n - 1]);
    ChainSeqs(chain, n - 1);
  }

  /** A tenant's archives followed by its rows are the same history after a pass as before, if
      and only if its front was not put over other rows. */
  lemma PassConservesIff(v: View, t: string, cutoff: int)
    requires ViewOk(v)
    ensures History(AfterPass(v, t, cutoff)) == History(v) <==> !Overwrites(v, t, cutoff)
  {
    FrontAndBack(v, cutoff);
    HistoryAfterPass(v, t, cutoff);
    if Front(v, cutoff) != [] {
      FrontIsNumbered(v, t, cutoff);
      ReadAfterPut(v.keys, v.objects, KeyFor(t, Front(v, cutoff)), Front(v, cutoff));
      SplitEqual(ReadAll(v.keys, WithFront(v, t, cutoff)), Full(v), Archived(v), Full(v));
    }
  }

  /** The front goes from the chain to the archives, at the place where they meet. */
  lemma HistoryAfterPass(v: View, t: string, cutoff: int)
    ensures History(AfterPass(v, t, cutoff)) == ReadAll(v.keys, WithFront(v, t, cutoff)) + Full(v)
  {
    FrontAndBack(v, cutoff);
    if Front(v, cutoff) == [] {
      assert v.keys + [] == v.keys;
      assert ExtendChain(Back(v, cutoff), []) == Back(v, cutoff);
    } else {
      MoveFront(v.keys, WithFront(v, t, cutoff), KeyFor(t, Front(v, cutoff)), Front(v, cutoff), Back(v, cutoff));
    }
  }

  lemma MoveFront(keys: seq<Key>, put: Bucket, k: Key, front: seq<Row>, back: seq<Row>)
    requires k in put && put[k] == front
    ensures ReadAll(keys + [k], put) + ExtendChain(back, []) == ReadAll(keys, put) + (front + back)
  {
    ReadOneMore(keys, k, put);
    assert ExtendChain(back, []) == back;
  }

  /** After a rollback the history is the same if and only if nothing was put over other rows. */
  lemma RollbackConservesIff(v: View, v': View, t: string, cutoff: int)
    requires ViewOk(v) && RolledBack(v, v', t, cutoff)
    ensures History(v') == History(v) <==> v'.objects == v.objects || !Overwrites(v, t, cutoff)
  {
    var front := Front(v, cutoff);
    if front != [] {
      FrontAndBack(v, cutoff);
      FrontIsNumbered(v, t, cutoff);
      ReadAfterPut(v.keys, v.objects, KeyFor(t, front), front);
      SplitEqual(ReadAll(v.keys, v'.objects), Full(v), ReadAll(v.keys, v.objects), Full(v));
    }
  }

  /** A whole pass, whichever way its transaction ends. */
  lemma EndConservesIff(w: Ledger, w': Ledger, cutoff: int, r: Result, t: string)
    requires TableOk(w.rows) && LedgerOk(w.log, w.bucket) && Ended(w, w', cutoff, r)
    ensures History(ViewOf(w', t)) == History(ViewOf(w, t)) <==>
      !HasStale(w.rows, t, cutoff) || !Overwrites(ViewOf(w, t), t, cutoff) ||
      (r.UploadFailed? && ObjectsOf(w'.bucket, t) == ObjectsOf(w.bucket, t))
  {
    ViewIsOk(w, t);
    if !HasStale(w.rows, t, cutoff) {
      assert Kept(w, w', t);
    } else if r.Deleted? {
      assert PassDone(w, w', t, cutoff);
      PassConservesIff(ViewOf(w, t), t, cutoff);
    } else {
      RollbackConservesIff(ViewOf(w, t), ViewOf(w', t), t, cutoff);
    }
  }

  // ---------------------------------------------------------------- what a pass leaves behind

  /** A pass empties a tenant's chain exactly when its newest row is stale and one pass is
      enough; sealing then restarts (see `SealContinuesHistoryIff`). */
  lemma PassEmptiesIff(full: seq<Row>, cutoff: int)
    requires full != []
    ensures full[PassCount(full, cutoff)..] == [] <==>
      full[|full| - 1].covered.created < cutoff && |full| <= MAX_ROWS_PER_PASS
  {
    assert |full[PassCount(full, cutoff)..]| == |full| - PassCount(full, cutoff);
  }

  ghost predicate FollowsTime(s: seq<Row>) {
    forall j, k :: 0 <= j < k < |s| ==> s[j].covered.created <= s[k].covered.created
  }

  /** If creation times follow the chain, only stale rows are deleted; a pass that is not cut
      short deletes every stale row in any case. */
  lemma OnlyStaleRowsGo(full: seq<Row>, cutoff: int, i: nat)
    requires i < |full|
    ensures FollowsTime(full) && i < PassCount(full, cutoff) ==> full[i].covered.created < cutoff
    ensures StaleCount(full, cutoff) <= MAX_ROWS_PER_PASS && full[i].covered.created < cutoff ==>
      i < PassCount(full, cutoff)
  {
  }

  /** A new archive's numbers start right behind every number archived before, as long as the
      history is one chain: key ranges never meet. */
  lemma RangesAreDisjoint(archived: seq<Row>, full: seq<Row>, i: nat, j: nat)
    requires ChainOk(archived + full) && i < |archived| && j < |full|
    ensures archived[i].chainSeq.Some? && full[j].chainSeq.Some?
    ensures archived[i].chainSeq.value < full[j].chainSeq.value
  {
    var all := archived + full;
    ChainSeqs(all, i);
    ChainSeqs(all, |archived| + j);
    assert all[i] == archived[i] && all[|archived| + j] == full[j];
    assert Numbered(all[i]) && Numbered(all[|archived| + j]);
  }

  lemma DeleteFront(rows: seq<Row>, t: string, batch: seq<Row>, kept: seq<Row>)
    requires TableOk(rows) && batch != [] && |batch| <= |Chain(rows, t)| && batch == Chain(rows, t)[..|batch|]
    requires kept == Filter(rows, Outside(t, KeyFor(t, batch).first, KeyFor(t, batch).last))
    ensures TableOk(kept) && OthersSame(rows, kept, t)
    ensures Chain(kept, t) == Chain(rows, t)[|batch|..] && Pending(kept, t) == Pending(rows, t)
    ensures KeyFor(t, batch).last - KeyFor(t, batch).first + 1 == |batch|
  {
    assert TenantOk(rows, t);
    PrefixNumbers(Chain(rows, t), |batch|, t, batch);
    DeleteOne(rows, t, |batch|, kept);
  }

  lemma LedgerAfterPut(log: seq<Key>, bucket: Bucket, k: Key, batch: seq<Row>)
    requires LedgerOk(log, bucket) && |batch| == k.last - k.first + 1
    ensures LedgerOk(log, bucket[k := batch]) && LedgerOk(log + [k], bucket[k := batch])
  {
  }

  lemma SealedFront(w: Ledger, rows: seq<Row>, t: string, cutoff: int, batch: seq<Row>)
    requires Chain(rows, t) == Full(ViewOf(w, t)) && batch == Chain(rows, t)[..PassCount(Chain(rows, t), cutoff)]
    ensures batch == Front(ViewOf(w, t), cutoff) && |batch| <= |Chain(rows, t)| && batch == Chain(rows, t)[..|batch|]
    ensures Chain(rows, t)[|batch|..] == Back(ViewOf(w, t), cutoff) && |batch| <= 5000
  {
  }

  lemma NothingToRetain(w: Ledger, w': Ledger, t: string, cutoff: int)
    requires Front(ViewOf(w, t), cutoff) == [] && w'.log == w.log && w'.bucket == w.bucket
    requires Chain(w'.rows, t) == Full(ViewOf(w, t)) && Pending(w'.rows, t) == [] && OthersSame(w.rows, w'.rows, t)
    ensures PassDone(w, w', t, cutoff)
    ensures forall u :: u != t ==> Kept(w, w', u)
  {
    FrontAndBack(ViewOf(w, t), cutoff);
    assert LogOf(w.log, t) + [] == LogOf(w.log, t);
  }

  lemma BatchRetained(w: Ledger, w': Ledger, t: string, cutoff: int, batch: seq<Row>, put: Put)
    requires batch == Front(ViewOf(w, t), cutoff) && batch != []
    requires OthersSame(w.rows, w'.rows, t) && Pending(w'.rows, t) == []
    requires w'.bucket == if put == Fails(false) then w.bucket else w.bucket[KeyFor(t, batch) := batch]
    requires put.Stored? ==> Chain(w'.rows, t) == Back(ViewOf(w, t), cutoff) && w'.log == w.log + [KeyFor(t, batch)]
    requires put.Fails? ==> Chain(w'.rows, t) == Full(ViewOf(w, t)) && w'.log == w.log
    ensures put.Stored? ==> PassDone(w, w', t, cutoff)
    ensures put.Fails? ==> Refused(ViewOf(w, t), ViewOf(w', t), t, cutoff)
    ensures forall u :: u != t ==> Kept(w, w', u)
    ensures put.Stored? ==>
      DeletedUnder(w'.log) == DeletedUnder(w.log) + KeyFor(t, batch).last - KeyFor(t, batch).first + 1
  {
    var k := KeyFor(t, batch);
    LogOneMore(w.log, k, t);
    ObjectsAfterPut(w.bucket, k, batch, t);
    assert (w.log + [k])[..|w.log|] == w.log;
    forall u | u != t
      ensures Kept(w, w', u)
    {
      LogOneMore(w.log, k, u);
      ObjectsAfterPut(w.bucket, k, batch, u);
      assert LogOf(w.log, u) + [] == LogOf(w.log, u);
    }
  }

  lemma OthersSameTwice(a: seq<Row>, b: seq<Row>, c: seq<Row>, t: string)
    requires OthersSame(a, b, t) && OthersSame(b, c, t)
    ensures OthersSame(a, c, t)
  {
  }

  /** Rows with a number up to `last`, as the `chain_seq <= last` selection. */
  method CountUpTo(chain: seq<Row>, last: int) returns (n: nat)
    requires ChainOk(chain)
    ensures n <= |chain|
    ensures forall i :: 0 <= i < |chain| ==> (chain[i].chainSeq.value <= last <==> i < n)
  {
    n := 0;
    assert forall i :: 0 <= i < |chain| ==> Numbered(chain[i]);
    while n < |chain| && chain[n].chainSeq.value <= last
      invariant n <= |chain|
      invariant forall i :: 0 <= i < n ==> chain[i].chainSeq.value <= last
    {
      n := n + 1;
    }
    forall i | n <= i < |chain|
      ensures chain[i].chainSeq.value > last
    {
      ChainSeqs(chain, i);
      ChainSeqs(chain, n);
    }
  }

  lemma StaleByNumber(chain: seq<Row>, cutoff: int, n: nat)
    requires ChainOk(chain) && StaleCount(chain, cutoff) > 0 && n <= |chain|
    requires Numbered(chain[StaleCount(chain, cutoff) - 1])
    requires forall i :: 0 <= i < |chain| ==> Numbered(chain[i])
    requires forall i :: 0 <= i < |chain| ==>
      (chain[i].chainSeq.value <= chain[StaleCount(chain, cutoff) - 1].chainSeq.value <==> i < n)
    ensures n == StaleCount(chain, cutoff)
  {
    var m := StaleCount(chain, cutoff);
    ChainSeqs(chain, m - 1);
    if n < |chain| { ChainSeqs(chain, n); }
    if n > 0 { ChainSeqs(chain, n - 1); }
    if m < |chain| { ChainSeqs(chain, m); }
  }
}
