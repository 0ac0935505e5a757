/** The `audit_log` table: append-only guard, sealing, verification and payload erasure
    (core/app/audit/chain.py, migration 0120). */
module AuditGuard {
  import opened Wrappers
  import opened AuditChain

  datatype Operation = Update | Delete

  /** Everything but the three chain columns. */
  function Core(r: Row): Row {
    r.(chainSeq := None, prevHash := None, hash := None)
  }

  /** The trigger's decision: the row to keep, or None when it raises. */
  function Guard(maintenance: bool, op: Operation, before: Row, after: Row): Option<Row> {
    if maintenance then
      if op.Delete? then Some(before) else Some(after)
    else if op.Update? && before.hash.None? && after.hash.Some? && Core(after) == Core(before) then Some(after)
    else None
  }

  type Table = map<int, Row>

  ghost predicate Keyed(table: Table) {
    forall id :: id in table ==> table[id].id == id
  }

  datatype Statement = InsertRow(row: Row) | UpdateRow(id: int, row: Row) | DeleteRow(id: int)

  /** A statement on the table; a refused one changes nothing. Inserts are not guarded. */
  function Execute(table: Table, maintenance: bool, st: Statement): Table {
    match st
    case InsertRow(row) => if row.id in table then table else table[row.id := row]
    case UpdateRow(id, row) =>
      if id !in table || (row.id != id && row.id in table) then table
      else if Guard(maintenance, Update, table[id], row).None? then table
      else (table - {id})[row.id := row]
    case DeleteRow(id) =>
      if id !in table || Guard(maintenance, Delete, table[id], table[id]).None? then table
      else table - {id}
  }

  /** A statement, in a transaction under maintenance or not. */
  datatype Command = Command(maintenance: bool, statement: Statement)

  function ExecuteAll(table: Table, commands: seq<Command>): Table {
    if commands == [] then table
    else
      var last := commands[|commands| - 1];
      Execute(ExecuteAll(table, commands[..|commands| - 1]), last.maintenance, last.statement)
  }

  /** A maintenance statement that updates or deletes the row with this id. */
  predicate Maintains(c: Command, id: int) {
    c.maintenance && match c.statement
                     case InsertRow(_) => false
                     case UpdateRow(other, _) => other == id
                     case DeleteRow(other) => other == id
  }

  /** The trigger on its columns: under maintenance everything passes; otherwise only an update that
      gives a hash to a row without one and leaves id, content and payload as they were. */
  lemma GuardIs(maintenance: bool, op: Operation, before: Row, after: Row)
    ensures Guard(maintenance, op, before, after).Some? <==>
      maintenance || (op == Update && before.hash == None && after.hash != None && after.id == before.id &&
        after.covered == before.covered && after.payload == before.payload)
    ensures Guard(maintenance, op, before, after).Some? ==>
      Guard(maintenance, op, before, after).value == if op == Delete then before else after
  {
  }

  /** An update on the columns: outside maintenance only one that gives a hash to a row without one and
      leaves id, content and payload as they were takes effect; under maintenance every one does whose
      new id is free. The row is then the new one, and no other row changes. */
  lemma UpdateHolds(table: Table, maintenance: bool, id: int, row: Row, other: int)
    requires Keyed(table) && id in table
    ensures
      var after := Execute(table, maintenance, UpdateRow(id, row));
      var sealing := table[id].hash == None && row.hash != None && row.id == id &&
        row.covered == table[id].covered && row.payload == table[id].payload;
      && (if sealing || (maintenance && (row.id == id || row.id !in table))
          then row.id in after && after[row.id] == row && (row.id != id ==> id !in after)
          else after == table)
      && (other != id && other != row.id ==> (other in after <==> other in table))
      && (other != id && other != row.id && other in table ==> after[other] == table[other])
  {
    GuardIs(maintenance, Update, table[id], row);
  }

  /** A deletion takes effect under maintenance alone, an insertion when the id is free. */
  lemma InsertAndDeleteHold(table: Table, maintenance: bool, id: int, row: Row, other: int)
    ensures
      var after := Execute(table, maintenance, DeleteRow(id));
      && (if maintenance then id !in after else after == table)
      && (other != id ==> (other in after <==> other in table))
      && (other != id && other in table ==> after[other] == table[other])
    ensures
      var after := Execute(table, maintenance, InsertRow(row));
      && (if row.id in table then after == table else row.id in after && after[row.id] == row)
      && (other != row.id ==> (other in after <==> other in table))
      && (other != row.id && other in table ==> after[other] == table[other])
  {
  }

  lemma {:induction false} StatementsKeepKeys(table: Table, commands: seq<Command>)
    requires Keyed(table)
    ensures Keyed(ExecuteAll(table, commands))
  {
    if commands != [] {
      StatementsKeepKeys(table, commands[..|commands| - 1]);
    }
  }

  /** Whatever statements are tried, a row that none of them maintains never disappears, its content and
      payload never change, and once it has a hash it never changes at all. */
  lemma {:induction false} AppendOnly(table: Table, commands: seq<Command>, id: int)
    requires Keyed(table) && id in table && forall c :: c in commands ==> !Maintains(c, id)
    ensures id in ExecuteAll(table, commands)
    ensures ExecuteAll(table, commands)[id].covered == table[id].covered
    ensures ExecuteAll(table, commands)[id].payload == table[id].payload
    ensures ExecuteAll(table, commands)[id].id == table[id].id
    ensures table[id].hash.Some? ==> ExecuteAll(table, commands)[id] == table[id]
  {
    if commands != [] {
      var init := commands[..|commands| - 1];
      assert commands[|commands| - 1] in commands;
      AppendOnly(table, init, id);
      StatementsKeepKeys(table, init);
    }
  }
}

module AuditLog {
  import opened Seqs
  import opened AuditChain

  const SEAL_BATCH: nat := 1000

  predicate SealedOf(t: string, r: Row) {
    r.covered.tenant == t && Numbered(r)
  }

  predicate PendingOf(t: string, r: Row) {
    r.covered.tenant == t && r.hash.None?
  }

  /** `c` is the answer of `WHERE tenant AND hash IS NOT NULL ORDER BY chain_seq`. */
  ghost predicate IsChain(rows: seq<Row>, t: string, c: seq<Row>) {
    && (forall k :: 0 <= k < |c| ==> c[k] in rows && SealedOf(t, c[k]))
    && (forall i :: 0 <= i < |rows| && SealedOf(t, rows[i]) ==> rows[i] in c)
    && (forall k, l :: 0 <= k < l < |c| ==> c[k].chainSeq.value < c[l].chainSeq.value)
  }

  /** `p` is the answer of `WHERE tenant AND hash IS NULL ORDER BY id`. */
  ghost predicate IsPending(rows: seq<Row>, t: string, p: seq<Row>) {
    && (forall k :: 0 <= k < |p| ==> p[k] in rows && PendingOf(t, p[k]))
    && (forall i :: 0 <= i < |rows| && PendingOf(t, rows[i]) ==> rows[i] in p)
    && (forall k, l :: 0 <= k < l < |p| ==> p[k].id < p[l].id)
  }

  /** The two selections as functions of the table; `ChainIs` and `PendingIs` identify them. */
  ghost function Chain(rows: seq<Row>, t: string): seq<Row> {
    if c :| IsChain(rows, t, c) then c else []
  }

  ghost function Pending(rows: seq<Row>, t: string): seq<Row> {
    if p :| IsPending(rows, t, p) then p else []
  }

  lemma ChainIs(rows: seq<Row>, t: string, c: seq<Row>)
    requires IsChain(rows, t, c)
    ensures Chain(rows, t) == c && IsChain(rows, t, Chain(rows, t))
  {
    var d := Chain(rows, t);
    var key := (r: Row) => if r.chainSeq.Some? then r.chainSeq.value else 0;
    assert IsChain(rows, t, d);
    ChainWithin(rows, t, c, d);
    ChainWithin(rows, t, d, c);
    assert forall k :: 0 <= k < |c| ==> SealedOf(t, c[k]);
    assert forall k :: 0 <= k < |d| ==> SealedOf(t, d[k]);
    StrictlySortedUnique(c, d, key);
  }

  lemma ChainWithin(rows: seq<Row>, t: string, c: seq<Row>, d: seq<Row>)
    requires IsChain(rows, t, c) && IsChain(rows, t, d)
    ensures Within(c, d)
  {
    forall k | 0 <= k < |c|
      ensures c[k] in d
    {
      var i :| 0 <= i < |rows| && rows[i] == c[k];
    }
  }

  lemma PendingIs(rows: seq<Row>, t: string, p: seq<Row>)
    requires IsPending(rows, t, p)
    ensures Pending(rows, t) == p && IsPending(rows, t, Pending(rows, t))
  {
    var q := Pending(rows, t);
    assert IsPending(rows, t, q);
    PendingWithin(rows, t, p, q);
    PendingWithin(rows, t, q, p);
    StrictlySortedUnique(p, q, (r: Row) => r.id);
  }

  lemma PendingWithin(rows: seq<Row>, t: string, p: seq<Row>, q: seq<Row>)
    requires IsPending(rows, t, p) && IsPending(rows, t, q)
    ensures Within(p, q)
  {
    forall k | 0 <= k < |p|
      ensures p[k] in q
    {
      var i :| 0 <= i < |rows| && rows[i] == p[k];
    }
  }

  ghost predicate DistinctIds(rows: seq<Row>) {
    forall i, j :: 0 <= i < j < |rows| ==> rows[i].id != rows[j].id
  }

  /** The rows of one tenant: selections exist and the sealed ones form a chain. */
  ghost predicate TenantOk(rows: seq<Row>, t: string) {
    && IsChain(rows, t, Chain(rows, t)) && ChainOk(Chain(rows, t))
    && IsPending(rows, t, Pending(rows, t))
  }

  ghost predicate TableOk(rows: seq<Row>) {
    && DistinctIds(rows)
    && (forall i :: 0 <= i < |rows| ==> (rows[i].hash.Some? <==> rows[i].chainSeq.Some?))
    && (forall t :: TenantOk(rows, t))
  }

  lemma EmptyTable(t: string)
    ensures TableOk([]) && Chain([], t) == [] && Pending([], t) == []
  {
    forall u
      ensures TenantOk([], u) && Chain([], u) == [] && Pending([], u) == []
    {
      ChainIs([], u, []);
      PendingIs([], u, []);
    }
  }

  // ---------------------------------------------------------------- selections under updates

  /** Replacing the row at `i` leaves the others in the table. */
  lemma StillThere(rows: seq<Row>, i: nat, r: Row, x: Row)
    requires i < |rows| && x in rows && x != rows[i]
    ensures x in rows[i := r]
  {
    var k :| 0 <= k < |rows| && rows[k] == x;
    assert rows[i := r][k] == x;
  }

  /** A tenant's selections only depend on its own rows. */
  lemma OtherTenant(rows: seq<Row>, i: nat, r: Row, t: string)
    requires i < |rows| && TenantOk(rows, t)
    requires rows[i].covered.tenant != t && r.covered.tenant != t
    ensures TenantOk(rows[i := r], t)
    ensures Chain(rows[i := r], t) == Chain(rows, t) && Pending(rows[i := r], t) == Pending(rows, t)
  {
    var c, p := Chain(rows, t), Pending(rows, t);
    forall k | 0 <= k < |c|
      ensures c[k] in rows[i := r]
    {
      StillThere(rows, i, r, c[k]);
    }
    forall k | 0 <= k < |p|
      ensures p[k] in rows[i := r]
    {
      StillThere(rows, i, r, p[k]);
    }
    ChainIs(rows[i := r], t, c);
    PendingIs(rows[i := r], t, p);
  }

  // ---------------------------------------------------------------- sealing one row

  lemma SealedChain(rows: seq<Row>, i: nat, t: string, r: Row, c: seq<Row>)
    requires i < |rows| && IsChain(rows, t, c) && ChainOk(c)
    requires PendingOf(t, rows[i]) && r == Seal(rows[i], HeadSeq(c) + 1, HeadHash(c))
    ensures IsChain(rows[i := r], t, c + [r]) && ChainOk(c + [r])
  {
    ExtendKeepsChain(c, [rows[i]]);
    ExtendOne(c, [rows[i]]);
    assert ExtendChain(c, [rows[i]]) == c + [r];
    var rows', s := rows[i := r], c + [r];
    forall k | 0 <= k < |s|
      ensures s[k] in rows' && SealedOf(t, s[k])
    {
      if k < |c| {
        StillThere(rows, i, r, c[k]);
      } else {
        assert rows'[i] == s[k];
      }
    }
    forall k | 0 <= k < |rows'| && SealedOf(t, rows'[k])
      ensures rows'[k] in s
    {
      if k == i {
        assert s[|c|] == rows'[i];
      } else {
        assert rows[k] in c;
      }
    }
    forall k, l | 0 <= k < l < |s|
      ensures s[k].chainSeq.value < s[l].chainSeq.value
    {
      ChainSeqs(s, k);
      ChainSeqs(s, l);
    }
  }

  lemma SealedPending(rows: seq<Row>, i: nat, t: string, r: Row, p: seq<Row>)
    requires i < |rows| && DistinctIds(rows) && IsPending(rows, t, p) && p != [] && p[0] == rows[i]
    requires r.hash.Some?
    ensures IsPending(rows[i := r], t, p[1..])
  {
    var rows', s := rows[i := r], p[1..];
    forall k | 0 <= k < |s|
      ensures s[k] in rows' && PendingOf(t, s[k])
    {
      assert s[k] == p[k + 1] && p[0].id < p[k + 1].id;
      StillThere(rows, i, r, p[k + 1]);
    }
    forall k | 0 <= k < |rows'| && PendingOf(t, rows'[k])
      ensures rows'[k] in s
    {
      assert rows[k] in p;
      var j :| 0 <= j < |p| && p[j] == rows[k];
      assert j != 0;
      assert s[j - 1] == rows[k];
    }
  }

  ghost predicate OthersSame(before: seq<Row>, after: seq<Row>, t: string) {
    forall u :: u != t ==> Chain(after, u) == Chain(before, u) && Pending(after, u) == Pending(before, u)
  }

  /** Replacing a row within its tenant: the table stays well-formed if that tenant does. */
  lemma ReplaceRow(rows: seq<Row>, i: nat, r: Row, c: seq<Row>, p: seq<Row>)
    requires TableOk(rows) && i < |rows|
    requires r.id == rows[i].id && r.covered.tenant == rows[i].covered.tenant
    requires r.hash.Some? <==> r.chainSeq.Some?
    requires IsChain(rows[i := r], r.covered.tenant, c) && ChainOk(c)
    requires IsPending(rows[i := r], r.covered.tenant, p)
    ensures TableOk(rows[i := r]) && OthersSame(rows, rows[i := r], r.covered.tenant)
    ensures Chain(rows[i := r], r.covered.tenant) == c && Pending(rows[i := r], r.covered.tenant) == p
  {
    var t, rows' := r.covered.tenant, rows[i := r];
    ChainIs(rows', t, c);
    PendingIs(rows', t, p);
    assert TenantOk(rows', t);
    assert DistinctIds(rows') by {
      assert forall k :: 0 <= k < |rows| ==> rows'[k].id == rows[k].id;
    }
    forall k | 0 <= k < |rows'|
      ensures rows'[k].hash.Some? <==> rows'[k].chainSeq.Some?
    {
      assert k == i || rows'[k] == rows[k];
    }
    forall u
      ensures TenantOk(rows', u)
      ensures u != t ==> Chain(rows', u) == Chain(rows, u) && Pending(rows', u) == Pending(rows, u)
    {
      if u != t {
        assert TenantOk(rows, u);
        OtherTenant(rows, i, r, u);
      }
    }
  }

  /** Sealing the oldest pending row of a tenant: it moves to the end of the chain, and no
      other tenant notices. */
  lemma SealOne(rows: seq<Row>, i: nat, t: string, r: Row)
    requires TableOk(rows) && i < |rows|
    requires Pending(rows, t) != [] && Pending(rows, t)[0] == rows[i]
    requires r == Seal(rows[i], HeadSeq(Chain(rows, t)) + 1, HeadHash(Chain(rows, t)))
    ensures TableOk(rows[i := r]) && OthersSame(rows, rows[i := r], t)
    ensures Chain(rows[i := r], t) == Chain(rows, t) + [r]
    ensures Pending(rows[i := r], t) == Pending(rows, t)[1..]
  {
    var c, p := Chain(rows, t), Pending(rows, t);
    assert TenantOk(rows, t) && PendingOf(t, p[0]);
    SealedChain(rows, i, t, r, c);
    SealedPending(rows, i, t, r, p);
    ReplaceRow(rows, i, r, c + [r], p[1..]);
  }

  // ---------------------------------------------------------------- erasing one payload

  lemma EraseInChain(rows: seq<Row>, i: nat, r: Row, t: string, c: seq<Row>, k: nat)
    requires i < |rows| && DistinctIds(rows) && IsChain(rows, t, c) && k < |c| && c[k] == rows[i]
    requires SealedOf(t, r) && r.chainSeq == rows[i].chainSeq
    ensures IsChain(rows[i := r], t, c[k := r])
  {
    var rows', s := rows[i := r], c[k := r];
    assert rows'[i] == r && s[k] == r;
    forall l | 0 <= l < |s|
      ensures s[l] in rows' && SealedOf(t, s[l])
    {
      if l != k {
        assert c[l].chainSeq != c[k].chainSeq;
        StillThere(rows, i, r, c[l]);
      }
    }
    forall j | 0 <= j < |rows'| && SealedOf(t, rows'[j])
      ensures rows'[j] in s
    {
      if j != i {
        assert rows[j].id != rows[i].id && rows[j] in c;
        var l :| 0 <= l < |c| && c[l] == rows[j];
        assert s[l] == rows[j];
      }
    }
  }

  lemma EraseInPending(rows: seq<Row>, i: nat, r: Row, t: string, p: seq<Row>, k: nat)
    requires i < |rows| && DistinctIds(rows) && IsPending(rows, t, p) && k < |p| && p[k] == rows[i]
    requires PendingOf(t, r) && r.id == rows[i].id
    ensures IsPending(rows[i := r], t, p[k := r])
  {
    var rows', s := rows[i := r], p[k := r];
    assert rows'[i] == r && s[k] == r;
    forall l | 0 <= l < |s|
      ensures s[l] in rows' && PendingOf(t, s[l])
    {
      if l != k {
        assert p[l].id != p[k].id;
        StillThere(rows, i, r, p[l]);
      }
    }
    forall j | 0 <= j < |rows'| && PendingOf(t, rows'[j])
      ensures rows'[j] in s
    {
      if j != i {
        assert rows[j].id != rows[i].id && rows[j] in p;
        var l :| 0 <= l < |p| && p[l] == rows[j];
        assert s[l] == rows[j];
      }
    }
  }

  /** A selection that does not hold the row does not change. */
  lemma NotInChain(rows: seq<Row>, i: nat, r: Row, t: string, c: seq<Row>)
    requires i < |rows| && IsChain(rows, t, c) && !SealedOf(t, rows[i]) && !SealedOf(t, r)
    ensures IsChain(rows[i := r], t, c)
  {
    forall k | 0 <= k < |c|
      ensures c[k] in rows[i := r]
    {
      StillThere(rows, i, r, c[k]);
    }
  }

  lemma NotInPending(rows: seq<Row>, i: nat, r: Row, t: string, p: seq<Row>)
    requires i < |rows| && IsPending(rows, t, p) && !PendingOf(t, rows[i]) && !PendingOf(t, r)
    ensures IsPending(rows[i := r], t, p)
  {
    forall k | 0 <= k < |p|
      ensures p[k] in rows[i := r]
    {
      StillThere(rows, i, r, p[k]);
    }
  }

  /** Every chain is the same and the same rows are pending, payloads aside. */
  ghost predicate SameFacts(before: seq<Row>, after: seq<Row>) {
    forall u :: Attests(Chain(before, u), Chain(after, u)) && Scrubbed(Pending(before, u), Pending(after, u))
  }

  ghost predicate Scrubbed(a: seq<Row>, b: seq<Row>) {
    |a| == |b| && forall i :: 0 <= i < |a| ==> SameButPayload(a[i], b[i])
  }

  ghost predicate Attests(a: seq<Row>, b: seq<Row>) {
    && |a| == |b| && Facts(a) == Facts(b) && HeadHash(a) == HeadHash(b)
    && forall i :: 0 <= i < |a| ==> SameButPayload(a[i], b[i])
  }

  lemma EraseSealed(rows: seq<Row>, i: nat, r: Row, k: nat)
    requires TableOk(rows) && i < |rows| && r == rows[i].(payload := r.payload)
    requires rows[i].hash.Some? && k < |Chain(rows, r.covered.tenant)| && Chain(rows, r.covered.tenant)[k] == rows[i]
    ensures TableOk(rows[i := r]) && SameFacts(rows, rows[i := r])
  {
    var t := r.covered.tenant;
    assert TenantOk(rows, t);
    var c := Chain(rows, t);
    EraseInChain(rows, i, r, t, c, k);
    NotInPending(rows, i, r, t, Pending(rows, t));
    EraseAttests(c, k, r);
    ReplaceRow(rows, i, r, c[k := r], Pending(rows, t));
    Itself(Pending(rows, t));
    ErasedOne(rows, rows[i := r], t);
  }

  lemma ErasedOne(rows: seq<Row>, rows': seq<Row>, t: string)
    requires OthersSame(rows, rows', t)
    requires Attests(Chain(rows, t), Chain(rows', t)) && Scrubbed(Pending(rows, t), Pending(rows', t))
    ensures SameFacts(rows, rows')
  {
    forall u
      ensures Attests(Chain(rows, u), Chain(rows', u)) && Scrubbed(Pending(rows, u), Pending(rows', u))
    {
      if u != t {
        Itself(Chain(rows, u));
        Itself(Pending(rows, u));
      }
    }
  }

  lemma Itself(c: seq<Row>)
    ensures Attests(c, c) && Scrubbed(c, c)
  {
    assert forall i :: 0 <= i < |c| ==> SameButPayload(c[i], c[i]);
  }

  lemma EraseAttests(c: seq<Row>, k: nat, r: Row)
    requires ChainOk(c) && k < |c| && r == c[k].(payload := r.payload)
    ensures ChainOk(c[k := r]) && Attests(c, c[k := r])
  {
    var d := c[k := r];
    forall i | 0 <= i < |c|
      ensures SameButPayload(c[i], d[i])
    {
      assert i != k ==> d[i] == c[i];
    }
    PayloadIsNotCovered(c, d);
  }

  lemma ErasePending(rows: seq<Row>, i: nat, r: Row, k: nat)
    requires TableOk(rows) && i < |rows| && r == rows[i].(payload := r.payload)
    requires rows[i].hash.None? && k < |Pending(rows, r.covered.tenant)| &&
      Pending(rows, r.covered.tenant)[k] == rows[i]
    ensures TableOk(rows[i := r]) && SameFacts(rows, rows[i := r])
  {
    var t := r.covered.tenant;
    assert TenantOk(rows, t);
    var p := Pending(rows, t);
    EraseInPending(rows, i, r, t, p, k);
    NotInChain(rows, i, r, t, Chain(rows, t));
    ReplaceRow(rows, i, r, Chain(rows, t), p[k := r]);
    Itself(Chain(rows, t));
    assert forall j :: 0 <= j < |p| && j != k ==> p[k := r][j] == p[j];
    ErasedOne(rows, rows[i := r], t);
  }

  /** Erasing the payload of one row keeps every chain, what it attests, and every pending row. */
  lemma EraseOne(rows: seq<Row>, i: nat, r: Row)
    requires TableOk(rows) && i < |rows| && r == rows[i].(payload := r.payload)
    ensures TableOk(rows[i := r]) && SameFacts(rows, rows[i := r])
  {
    var t := r.covered.tenant;
    assert TenantOk(rows, t);
    if rows[i].hash.Some? {
      assert rows[i] in Chain(rows, t);
      var k :| 0 <= k < |Chain(rows, t)| && Chain(rows, t)[k] == rows[i];
      EraseSealed(rows, i, r, k);
    } else {
      assert rows[i] in Pending(rows, t);
      var k :| 0 <= k < |Pending(rows, t)| && Pending(rows, t)[k] == rows[i];
      ErasePending(rows, i, r, k);
    }
  }
}
