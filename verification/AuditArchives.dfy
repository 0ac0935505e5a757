/** The bucket of archived audit rows: objects by key, written over without warning
    (core/app/audit/store.py), and what a tenant's stored history is. */
module AuditArchives {
  import opened Seqs
  import opened AuditChain
  import opened AuditLog

  /** `audit/<tenant>/<first>-<last>.jsonl`. */
  datatype Key = Key(tenant: string, first: int, last: int)

  type Bucket = map<Key, seq<Row>>

  /** The table, the keys under which rows were archived and then deleted, in order, and the
      objects as they are now. */
  datatype Ledger = Ledger(rows: seq<Row>, log: seq<Key>, bucket: Bucket)

  function Number(r: Row): int {
    if r.chainSeq.Some? then r.chainSeq.value else 0
  }

  function KeyFor(t: string, batch: seq<Row>): Key
    requires batch != []
  {
    Key(t, Number(batch[0]), Number(batch[|batch| - 1]))
  }

  function ForTenant(t: string): Key -> bool {
    (k: Key) => k.tenant == t
  }

  function LogOf(log: seq<Key>, t: string): seq<Key> {
    Filter(log, ForTenant(t))
  }

  /** The rows read back from the objects under these keys. */
  function ReadAll(keys: seq<Key>, bucket: Bucket): seq<Row> {
    if keys == [] then []
    else
      var last := keys[|keys| - 1];
      ReadAll(keys[..|keys| - 1], bucket) + if last in bucket then bucket[last] else []
  }

  /** Archives are stored, and an object has as many rows as its key says. */
  ghost predicate LedgerOk(log: seq<Key>, bucket: Bucket) {
    && (forall k :: k in log ==> k in bucket)
    && (forall k :: k in bucket ==> |bucket[k]| == k.last - k.first + 1)
  }

  // ---------------------------------------------------------------- what concerns one tenant

  datatype View = View(chain: seq<Row>, pending: seq<Row>, keys: seq<Key>, objects: Bucket)

  function ObjectsOf(bucket: Bucket, t: string): Bucket {
    map k | k in bucket && k.tenant == t :: bucket[k]
  }

  ghost function ViewOf(w: Ledger, t: string): View {
    View(Chain(w.rows, t), Pending(w.rows, t), LogOf(w.log, t), ObjectsOf(w.bucket, t))
  }

  /** The rows of the archives as they can be read now. */
  function Archived(v: View): seq<Row> {
    ReadAll(v.keys, v.objects)
  }

  /** The chain once everything pending is sealed. */
  function Full(v: View): seq<Row> {
    ExtendChain(v.chain, v.pending)
  }

  /** Everything that is known of a tenant: archives, then the chain. */
  function History(v: View): seq<Row> {
    Archived(v) + Full(v)
  }

  ghost predicate ViewOk(v: View) {
    ChainOk(v.chain) && LedgerOk(v.keys, v.objects)
  }

  lemma ViewIsOk(w: Ledger, t: string)
    requires TableOk(w.rows) && LedgerOk(w.log, w.bucket)
    ensures ViewOk(ViewOf(w, t))
  {
    assert TenantOk(w.rows, t);
    LogOfIs(w.log, t);
  }

  lemma ObjectsAfterPut(bucket: Bucket, k: Key, batch: seq<Row>, t: string)
    ensures k.tenant == t ==> ObjectsOf(bucket[k := batch], t) == ObjectsOf(bucket, t)[k := batch]
    ensures k.tenant != t ==> ObjectsOf(bucket[k := batch], t) == ObjectsOf(bucket, t)
  {
  }

  lemma LogOneMore(log: seq<Key>, k: Key, t: string)
    ensures LogOf(log + [k], t) == LogOf(log, t) + if k.tenant == t then [k] else []
  {
    FilterConcat(log, [k], ForTenant(t));
    FilterOne(k, ForTenant(t));
  }

  lemma LogOfIs(log: seq<Key>, t: string)
    ensures forall k :: k in LogOf(log, t) <==> k in log && k.tenant == t
  {
    forall k
      ensures k in LogOf(log, t) <==> k in log && k.tenant == t
    {
      assert ForTenant(t)(k) <==> k.tenant == t;
    }
  }

  lemma {:induction false} ReadOneMore(keys: seq<Key>, k: Key, bucket: Bucket)
    requires k in bucket
    ensures ReadAll(keys + [k], bucket) == ReadAll(keys, bucket) + bucket[k]
  {
    assert (keys + [k])[..|keys|] == keys;
  }

  /** Storing rows under a key changes what is read back exactly when the key was used for other
      rows: objects of one key have one length, so a lost one cannot be made up for. */
  lemma {:induction false} ReadAfterPut(keys: seq<Key>, bucket: Bucket, k: Key, batch: seq<Row>)
    requires LedgerOk(keys, bucket) && |batch| == k.last - k.first + 1
    ensures ReadAll(keys, bucket[k := batch]) == ReadAll(keys, bucket) <==> (k in keys ==> bucket[k] == batch)
    ensures |ReadAll(keys, bucket[k := batch])| == |ReadAll(keys, bucket)|
  {
    if keys != [] {
      var init, last := keys[..|keys| - 1], keys[|keys| - 1];
      assert last in keys && keys == init + [last];
      ReadAfterPut(init, bucket, k, batch);
      var a, b := ReadAll(init, bucket[k := batch]), ReadAll(init, bucket);
      SplitEqual(a, bucket[k := batch][last], b, bucket[last]);
    }
  }

  lemma SplitEqual(a: seq<Row>, x: seq<Row>, b: seq<Row>, y: seq<Row>)
    requires |a| == |b|
    ensures a + x == b + y <==> a == b && x == y
  {
    if a + x == b + y {
      assert (a + x)[..|a|] == a && (b + y)[..|b|] == b;
      assert (a + x)[|a|..] == x && (b + y)[|b|..] == y;
    }
  }
}
