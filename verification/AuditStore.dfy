/** The operations on `audit_log`: insert, seal, verify, erase (core/app/audit/chain.py). */
module AuditStore {
  import opened Wrappers
  import opened Seqs
  import opened AuditChain
  import opened AuditGuard
  import opened AuditLog

  datatype Report = Report(ok: bool, checked: nat, lastSeq: Option<int>, headHash: Option<Hash>,
                           brokenAtSeq: Option<int>, unsealed: nat)

  /** A verification returns a report; adding one to a missing number raises. */
  datatype Outcome = Done(report: Report) | TypeError

  function SealedBy(t: string): Row -> bool {
    (r: Row) => SealedOf(t, r)
  }

  function PendingBy(t: string): Row -> bool {
    (r: Row) => PendingOf(t, r)
  }

  function UnnumberedBy(t: string): Row -> bool {
    (r: Row) => r.covered.tenant == t && r.hash.Some? && r.chainSeq.None?
  }

  function SeqKey(): Row -> int {
    (r: Row) => if r.chainSeq.Some? then r.chainSeq.value else 0
  }

  function IdKey(): Row -> int {
    (r: Row) => r.id
  }

  /** The numbered rows of a tenant in verification order, whatever the table holds. */
  function Ordered(rows: seq<Row>, t: string): seq<Row> {
    SortBy(Filter(rows, SealedBy(t)), SeqKey())
  }

  /** Hashed rows without a number; they sort last. */
  function Unnumbered(rows: seq<Row>, t: string): seq<Row> {
    Filter(rows, UnnumberedBy(t))
  }

  lemma NumbersDiffer(rows: seq<Row>, t: string, c: seq<Row>, i: nat, j: nat)
    requires DistinctIds(rows) && IsChain(rows, t, c)
    requires i < j < |rows| && SealedOf(t, rows[i]) && SealedOf(t, rows[j])
    ensures rows[i].chainSeq.value != rows[j].chainSeq.value
  {
    assert rows[i] in c && rows[j] in c && rows[i].id != rows[j].id;
    var k :| 0 <= k < |c| && c[k] == rows[i];
    var l :| 0 <= l < |c| && c[l] == rows[j];
    assert k != l;
  }

  lemma OrderedIs(rows: seq<Row>, t: string, c: seq<Row>)
    requires DistinctIds(rows) && IsChain(rows, t, c)
    ensures Ordered(rows, t) == c
  {
    forall i, j | 0 <= i < j < |rows| && SealedBy(t)(rows[i]) && SealedBy(t)(rows[j])
      ensures SeqKey()(rows[i]) != SeqKey()(rows[j])
    {
      NumbersDiffer(rows, t, c, i, j);
    }
    assert forall i :: 0 <= i < |c| ==> SealedOf(t, c[i]);
    SelectionIs(rows, SealedBy(t), SeqKey(), c);
  }

  lemma OrderedIsChain(rows: seq<Row>, t: string)
    requires TableOk(rows)
    ensures Ordered(rows, t) == Chain(rows, t) && Unnumbered(rows, t) == []
  {
    assert TenantOk(rows, t);
    OrderedIs(rows, t, Chain(rows, t));
    FilterNone(rows, UnnumberedBy(t));
  }

  lemma OrderedIsPending(rows: seq<Row>, t: string)
    requires TableOk(rows)
    ensures SortBy(Filter(rows, PendingBy(t)), IdKey()) == Pending(rows, t)
  {
    assert TenantOk(rows, t);
    var p := Pending(rows, t);
    assert forall i :: 0 <= i < |p| ==> PendingOf(t, p[i]);
    SelectionIs(rows, PendingBy(t), IdKey(), p);
  }

  lemma UnsealedCount(rows: seq<Row>, t: string)
    requires TableOk(rows)
    ensures |Filter(rows, PendingBy(t))| == |Pending(rows, t)|
  {
    OrderedIsPending(rows, t);
  }

  /** A new unsealed row joins its tenant's pending rows at the place of its id. */
  lemma InsertOne(rows: seq<Row>, r: Row)
    requires TableOk(rows) && r.hash.None? && r.chainSeq.None?
    requires forall i :: 0 <= i < |rows| ==> rows[i].id != r.id
    ensures TableOk(rows + [r])
    ensures forall u :: Chain(rows + [r], u) == Chain(rows, u)
    ensures forall u :: u != r.covered.tenant ==> Pending(rows + [r], u) == Pending(rows, u)
    ensures IsPending(rows + [r], r.covered.tenant, Pending(rows + [r], r.covered.tenant))
  {
    var rows' := rows + [r];
    AppendedRow(rows, r);
    forall u
      ensures TenantOk(rows', u) && Chain(rows', u) == Chain(rows, u)
      ensures u != r.covered.tenant ==> Pending(rows', u) == Pending(rows, u)
    {
      assert TenantOk(rows, u);
      InsertForTenant(rows, r, u);
    }
    assert TenantOk(rows', r.covered.tenant);
  }

  lemma AppendedRow(rows: seq<Row>, r: Row)
    requires DistinctIds(rows) && forall i :: 0 <= i < |rows| ==> rows[i].id != r.id
    requires forall i :: 0 <= i < |rows| ==> (rows[i].hash.Some? <==> rows[i].chainSeq.Some?)
    requires r.hash.None? && r.chainSeq.None?
    ensures DistinctIds(rows + [r])
    ensures forall i :: 0 <= i < |rows + [r]| ==> ((rows + [r])[i].hash.Some? <==> (rows + [r])[i].chainSeq.Some?)
  {
    assert forall i :: 0 <= i < |rows| ==> (rows + [r])[i] == rows[i];
  }

  lemma InsertForTenant(rows: seq<Row>, r: Row, u: string)
    requires TenantOk(rows, u) && r.hash.None?
    requires forall i :: 0 <= i < |rows| ==> rows[i].id != r.id
    ensures TenantOk(rows + [r], u) && Chain(rows + [r], u) == Chain(rows, u)
    ensures u != r.covered.tenant ==> Pending(rows + [r], u) == Pending(rows, u)
  {
    var rows', c, p := rows + [r], Chain(rows, u), Pending(rows, u);
    assert forall i :: 0 <= i < |rows| ==> rows'[i] == rows[i];
    assert IsChain(rows', u, c);
    ChainIs(rows', u, c);
    if u != r.covered.tenant {
      assert IsPending(rows', u, p);
      PendingIs(rows', u, p);
    } else {
      PendingWithNew(rows, r, u, p);
    }
  }

  lemma PendingWithNew(rows: seq<Row>, r: Row, u: string, p: seq<Row>)
    requires IsPending(rows, u, p) && PendingOf(u, r)
    requires forall i :: 0 <= i < |rows| ==> rows[i].id != r.id
    ensures IsPending(rows + [r], u, Pending(rows + [r], u))
  {
    var rows', key := rows + [r], IdKey();
    assert forall i, j :: 0 <= i < j < |p| ==> key(p[i]) < key(p[j]);
    forall y | y in p
      ensures key(y) != key(r) && y in rows' && PendingOf(u, y)
    {
      var k :| 0 <= k < |p| && p[k] == y;
      assert p[k] in rows;
    }
    InsertStrict(p, r, key);
    var q := Insert(p, r, key);
    assert rows'[|rows|] == r;
    forall k | 0 <= k < |q|
      ensures q[k] in rows' && PendingOf(u, q[k])
    {
      assert q[k] in q;
    }
    forall i | 0 <= i < |rows'| && PendingOf(u, rows'[i])
      ensures rows'[i] in q
    {
      if i < |rows| { assert rows[i] in p; }
    }
    forall k, l | 0 <= k < l < |q|
      ensures q[k].id < q[l].id
    {
      assert key(q[k]) < key(q[l]);
    }
    PendingIs(rows', u, q);
  }

  /** Every row is as before or went through the guard's sealing branch. */
  ghost predicate OnlySealed(before: seq<Row>, after: seq<Row>) {
    && |after| == |before|
    && forall i :: 0 <= i < |before| ==>
         after[i] == before[i] || Guard(false, Update, before[i], after[i]) == Some(after[i])
  }

  class Store {
    var rows: seq<Row>

    ghost predicate Valid()
      reads this
    {
      TableOk(rows)
    }

    constructor ()
      ensures Valid() && rows == []
      ensures forall t :: Chain(rows, t) == [] && Pending(rows, t) == []
    {
      rows := [];
      forall t
        ensures TableOk([]) && Chain([], t) == [] && Pending([], t) == []
      {
        EmptyTable(t);
      }
    }

    method Append(id: int, covered: Covered, payload: string)
      requires Valid()
      requires forall i :: 0 <= i < |rows| ==> rows[i].id != id
      modifies this
      ensures Valid()
      ensures rows == old(rows) + [Row(id, covered, payload, None, None, None)]
      ensures forall u :: Chain(rows, u) == Chain(old(rows), u)
      ensures forall u :: u != covered.tenant ==> Pending(rows, u) == Pending(old(rows), u)
    {
      var r := Row(id, covered, payload, None, None, None);
      InsertOne(rows, r);
      rows := rows + [r];
    }

    /** The sealed rows of a tenant in chain order. */
    method SelectChain(t: string) returns (c: seq<Row>)
      requires Valid()
      ensures c == Chain(rows, t) && ChainOk(c)
    {
      c := Ordered(rows, t);
      OrderedIsChain(rows, t);
      assert TenantOk(rows, t);
    }

    method Head(t: string) returns (h: Option<(int, Hash)>)
      requires Valid()
      ensures h.None? <==> Chain(rows, t) == []
      ensures h.Some? ==> h.value == (HeadSeq(Chain(rows, t)), HeadHash(Chain(rows, t)))
    {
      var c := SelectChain(t);
      if c == [] {
        return None;
      }
      var last := c[|c| - 1];
      assert Numbered(c[|c| - 1]);
      return Some((last.chainSeq.value, last.hash.value));
    }

    /** Chains the first `limit` unsealed rows of a tenant, in id order. */
    method SealRows(t: string, limit: nat) returns (n: nat)
      requires Valid()
      modifies this
      ensures Valid()
      ensures n == if limit < |Pending(old(rows), t)| then limit else |Pending(old(rows), t)|
      ensures Chain(rows, t) == ExtendChain(Chain(old(rows), t), Pending(old(rows), t)[..n])
      ensures Pending(rows, t) == Pending(old(rows), t)[n..]
      ensures OthersSame(old(rows), rows, t)
      ensures OnlySealed(old(rows), rows)
    {
      var head := Head(t);
      OrderedIsPending(rows, t);
      var pending := SortBy(Filter(rows, PendingBy(t)), IdKey());
      n := if limit < |pending| then limit else |pending|;
      var sealed := SealInOrder(rows, t, head, pending, n);
      rows := sealed;
    }

    /** Seals everything, batch after batch. */
    method SealAll(t: string, batch: nat := SEAL_BATCH) returns (total: nat)
      requires Valid() && batch > 0
      modifies this
      ensures Valid()
      ensures total == |Pending(old(rows), t)|
      ensures Chain(rows, t) == ExtendChain(Chain(old(rows), t), Pending(old(rows), t))
      ensures Pending(rows, t) == []
      ensures OthersSame(old(rows), rows, t)
      ensures OnlySealed(old(rows), rows)
      // on the rows: every row of the tenant has a hash, and no other row changed
      ensures AllHashed(old(rows), rows, t)
    {
      ghost var first, c0, p0 := rows, Chain(rows, t), Pending(rows, t);
      total := 0;
      NothingSealedYet(rows, t);
      var n := SealNext(t, batch, first, c0, p0, total);
      while n > 0
        invariant total + n <= |p0| && SealedUpTo(first, rows, t, c0, p0, total + n)
        invariant n == 0 ==> total == |p0|
        decreases |p0| - total
      {
        total := total + n;
        n := SealNext(t, batch, first, c0, p0, total);
      }
      AllSealed(first, rows, t, c0, p0);
    }

    /** One round of the loop: a batch of what is still pending. */
    method SealNext(t: string, batch: nat, ghost first: seq<Row>, ghost c0: seq<Row>, ghost p0: seq<Row>,
                    ghost done: nat)
      returns (n: nat)
      requires batch > 0 && SealedUpTo(first, rows, t, c0, p0, done)
      modifies this
      ensures done + n <= |p0| && SealedUpTo(first, rows, t, c0, p0, done + n)
      ensures n == 0 <==> done == |p0|
    {
      ghost var before := rows;
      n := SealRows(t, batch);
      BatchStep(first, before, rows, t, c0, p0, done, n);
    }

    /** Erasure of personal data in payloads, under maintenance. */
    method ErasePayloads(chosen: Row -> bool, scrub: string -> string)
      requires Valid()
      modifies this
      ensures Valid()
      ensures |rows| == |old(rows)|
      ensures forall i :: 0 <= i < |rows| ==>
        rows[i] == if chosen(old(rows)[i]) then old(rows)[i].(payload := scrub(old(rows)[i].payload)) else old(rows)[i]
      ensures SameFacts(old(rows), rows)
    {
      for i := 0 to |rows|
        invariant |rows| == |old(rows)| && TableOk(rows) && SameFacts(old(rows), rows)
        invariant forall j :: i <= j < |rows| ==> rows[j] == old(rows)[j]
        invariant forall j :: 0 <= j < i ==>
          rows[j] == (if chosen(old(rows)[j])
                      then old(rows)[j].(payload := scrub(old(rows)[j].payload)) else old(rows)[j])
      {
        if chosen(rows[i]) {
          var r := rows[i].(payload := scrub(rows[i].payload));
          EraseOne(rows, i, r);
          SameFactsTwice(old(rows), rows, rows[i := r]);
          rows := rows[i := r];
        }
      }
    }

    /** Recomputes a tenant's chain. On a table only changed through the operations above it
        reports every sealed row as checked. In general it reports a break exactly when the
        numbered rows are not a chain, at the first row that does not fit, and says nothing
        about hashed rows without a number that follow a good chain. */
    method Verify(t: string) returns (out: Outcome)
      ensures Ordered(rows, t) != [] && ChainOk(Ordered(rows, t)) ==>
        out == Done(GoodReport(Ordered(rows, t), |Filter(rows, PendingBy(t))|))
      ensures !ChainOk(Ordered(rows, t)) ==>
        out.Done? && !out.report.ok && FirstBreak(Ordered(rows, t), out.report.checked) &&
        out.report.brokenAtSeq == Ordered(rows, t)[out.report.checked].chainSeq
      ensures TableOk(rows) ==> out == Done(GoodReport(Chain(rows, t), |Pending(rows, t)|))
      // on the rows: unsealed is zero exactly when every row of the tenant has a hash
      ensures out.Done? ==>
        (out.report.unsealed == 0 <==> forall r :: r in rows && r.covered.tenant == t ==> r.hash.Some?)
      // with hashed rows but no number among them it raises, or says "ok" even on a wrong digest
      ensures out.TypeError? <==>
        Ordered(rows, t) == [] && |Unnumbered(rows, t)| > 1 && FirstDigestOk(Unnumbered(rows, t))
      ensures Ordered(rows, t) == [] && Unnumbered(rows, t) != [] && out.Done? ==>
        out == Done(UnnumberedReport(Unnumbered(rows, t), |Filter(rows, PendingBy(t))|))
    {
      var numbered, rest := Ordered(rows, t), Unnumbered(rows, t);
      forall i | 0 <= i < |numbered|
        ensures Numbered(numbered[i])
      {
        assert numbered[i] in numbered && SealedBy(t)(numbered[i]);
      }
      forall i | 0 <= i < |rest|
        ensures rest[i].hash.Some? && rest[i].chainSeq.None?
      {
        assert rest[i] in rest && UnnumberedBy(t)(rest[i]);
      }
      var unsealed := |Filter(rows, PendingBy(t))|;
      assert forall r :: r in Filter(rows, PendingBy(t)) <==> r in rows && PendingBy(t)(r);
      assert forall r :: PendingBy(t)(r) <==> r.covered.tenant == t && r.hash.None?;
      NoneIsZero(rows, t);
      out := Walk(numbered, rest, unsealed);
      if TableOk(rows) {
        OrderedIsChain(rows, t);
        UnsealedCount(rows, t);
        assert TenantOk(rows, t);
      }
    }
  }

  lemma NoneIsZero(rows: seq<Row>, t: string)
    ensures |Filter(rows, PendingBy(t))| == 0 <==> forall r :: r in rows && r.covered.tenant == t ==> r.hash.Some?
  {
    var f := Filter(rows, PendingBy(t));
    if f != [] { assert f[0] in f && PendingBy(t)(f[0]); }
    forall r | r in rows && r.covered.tenant == t && r.hash.None?
      ensures r in f
    {
      assert PendingBy(t)(r);
    }
  }

  /** The verification order on the columns: the rows of the tenant with hash and number, by number. */
  lemma OrderedHolds(rows: seq<Row>, t: string)
    ensures forall r :: r in Ordered(rows, t) <==>
      r in rows && r.covered.tenant == t && r.hash.Some? && r.chainSeq.Some?
    ensures forall i, j :: 0 <= i < j < |Ordered(rows, t)| ==>
      Ordered(rows, t)[i].chainSeq.Some? && Ordered(rows, t)[j].chainSeq.Some? &&
      Ordered(rows, t)[i].chainSeq.value <= Ordered(rows, t)[j].chainSeq.value
  {
    var f, o := Filter(rows, SealedBy(t)), Ordered(rows, t);
    assert multiset(o) == multiset(f) && SortedBy(o, SeqKey());
    MultisetMembership(o, f);
    forall r
      ensures r in o <==> r in rows && r.covered.tenant == t && r.hash.Some? && r.chainSeq.Some?
    {
      assert r in f <==> r in rows && SealedBy(t)(r);
    }
    forall i, j | 0 <= i < j < |o|
      ensures o[i].chainSeq.Some? && o[j].chainSeq.Some? && o[i].chainSeq.value <= o[j].chainSeq.value
    {
      assert o[i] in o && o[j] in o && SeqKey()(o[i]) <= SeqKey()(o[j]);
    }
  }

  method IndexOf(rows: seq<Row>, r: Row) returns (i: nat)
    requires r in rows
    ensures i < |rows| && rows[i] == r
  {
    i := 0;
    while rows[i] != r
      invariant i < |rows|
      invariant forall j :: 0 <= j < i ==> rows[j] != r
      decreases |rows| - i
    {
      i := i + 1;
    }
  }

  /** The sealing loop: running number and link, one row after the other. */
  method SealInOrder(rows: seq<Row>, t: string, head: Option<(int, Hash)>, pending: seq<Row>, n: nat)
    returns (sealed: seq<Row>)
    requires TableOk(rows) && pending == Pending(rows, t) && n <= |pending|
    requires head == if Chain(rows, t) == [] then None else Some((HeadSeq(Chain(rows, t)), HeadHash(Chain(rows, t))))
    ensures SealedUpTo(rows, sealed, t, Chain(rows, t), pending, n)
  {
    sealed := rows;
    ghost var c0 := Chain(rows, t);
    var seqNo, prev := if head.Some? then head.value.0 else 0, if head.Some? then head.value.1 else Empty;
    NothingSealedYet(rows, t);
    for k := 0 to n
      invariant SealedUpTo(rows, sealed, t, c0, pending, k)
      invariant IsHead(sealed, t, seqNo, prev)
    {
      NextIsThere(rows, sealed, t, c0, pending, k);
      var i := IndexOf(sealed, pending[k]);
      seqNo := seqNo + 1;
      var row := Seal(sealed[i], seqNo, prev);
      SealStep(rows, sealed, t, c0, pending, k, i, row, prev);
      sealed := sealed[i := row];
      prev := row.hash.value;
    }
  }

  ghost predicate IsHead(rows: seq<Row>, t: string, seqNo: int, prev: Hash) {
    seqNo == HeadSeq(Chain(rows, t)) && prev == HeadHash(Chain(rows, t))
  }

  /** The verification loop over rows with a number, then rows without. */
  method Walk(numbered: seq<Row>, rest: seq<Row>, unsealed: nat) returns (out: Outcome)
    requires forall i :: 0 <= i < |numbered| ==> Numbered(numbered[i])
    requires forall i :: 0 <= i < |rest| ==> rest[i].hash.Some? && rest[i].chainSeq.None?
    ensures ChainOk(numbered) && (numbered != [] || rest == []) ==> out == Done(GoodReport(numbered, unsealed))
    ensures !ChainOk(numbered) ==>
      out.Done? && !out.report.ok && FirstBreak(numbered, out.report.checked) &&
      out.report.brokenAtSeq == numbered[out.report.checked].chainSeq
    ensures out.Done? ==> out.report.unsealed == unsealed
    // without any numbered row only the first digest is looked at: a wrong one is a break without a
    // number, a right one is accepted, and a second row then raises
    ensures out.TypeError? <==> numbered == [] && |rest| > 1 && FirstDigestOk(rest)
    ensures numbered == [] && rest != [] && out.Done? ==> out == Done(UnnumberedReport(rest, unsealed))
  {
    var walk := numbered + rest;
    var checked, i := 0, 0;
    var lastSeq: Option<int>, prev: Option<Hash>, broken: Option<int> := None, None, None;
    while i < |walk|
      invariant 0 <= i <= |walk| && checked == i && broken == None
      invariant numbered != [] ==> i <= |numbered|
      invariant i <= |numbered| ==> forall j :: 0 <= j < i ==> RowOk(numbered, j)
      invariant i == 0 ==> lastSeq == None && prev == None
      invariant numbered == [] ==> i <= 1
      invariant numbered == [] && i == 1 ==> lastSeq == None && prev == rest[0].hash && FirstDigestOk(rest)
      invariant 0 < i <= |numbered| ==> lastSeq == numbered[i - 1].chainSeq && prev == numbered[i - 1].hash
      decreases |walk| - i
    {
      var row := walk[i];
      assert row == if i < |numbered| then numbered[i] else rest[i - |numbered|];
      if prev.Some? {
        if lastSeq.None? {
          return TypeError;
        }
        if row.chainSeq != Some(lastSeq.value + 1) || row.prevHash != prev {
          broken := row.chainSeq;
          break;
        }
      }
      if DigestOf(row) != row.hash.value {
        broken := row.chainSeq;
        break;
      }
      checked, lastSeq, prev, i := checked + 1, row.chainSeq, row.hash, i + 1;
    }
    out := Done(Report(broken.None?, checked, lastSeq, prev, broken, unsealed));
    assert broken.Some? ==> i < |numbered| && !RowOk(numbered, i);
  }

  /** The first row carries its own digest. */
  predicate FirstDigestOk(rows: seq<Row>) {
    rows != [] && rows[0].hash == Some(DigestOf(rows[0]))
  }

  /** The report on hashed rows without any number: "ok", whatever the first digest. */
  function UnnumberedReport(rest: seq<Row>, unsealed: nat): Report {
    if FirstDigestOk(rest) then Report(true, 1, None, rest[0].hash, None, unsealed)
    else Report(true, 0, None, None, None, unsealed)
  }

  /** A clean report on a chain. */
  function GoodReport(s: seq<Row>, unsealed: nat): Report {
    if s == [] then Report(true, 0, None, None, None, unsealed)
    else Report(true, |s|, s[|s| - 1].chainSeq, s[|s| - 1].hash, None, unsealed)
  }

  /** The first `k` of the pending rows `p0` have been sealed behind `c0`, nothing else changed. */
  ghost predicate SealedUpTo(before: seq<Row>, rows: seq<Row>, t: string, c0: seq<Row>, p0: seq<Row>, k: nat) {
    && k <= |p0|
    && TableOk(rows) && OthersSame(before, rows, t) && OnlySealed(before, rows)
    && Chain(rows, t) == ExtendChain(c0, p0[..k])
    && Pending(rows, t) == p0[k..]
  }

  lemma NothingSealedYet(rows: seq<Row>, t: string)
    requires TableOk(rows)
    ensures SealedUpTo(rows, rows, t, Chain(rows, t), Pending(rows, t), 0)
  {
    var c, p := Chain(rows, t), Pending(rows, t);
    assert ExtendChain(c, p[..0]) == c && p[0..] == p;
  }

  lemma AllSealed(before: seq<Row>, rows: seq<Row>, t: string, c0: seq<Row>, p0: seq<Row>)
    requires SealedUpTo(before, rows, t, c0, p0, |p0|)
    ensures Chain(rows, t) == ExtendChain(c0, p0) && Pending(rows, t) == []
    ensures TableOk(rows) && OthersSame(before, rows, t) && OnlySealed(before, rows)
    ensures TableOk(before) ==> AllHashed(before, rows, t)
  {
    assert p0[..|p0|] == p0;
    if TableOk(before) {
      NothingElse(before, rows, t);
      NoneLeft(rows, t);
    }
  }

  /** Every row of the tenant has a hash, and no row changed but its rows without one. */
  ghost predicate AllHashed(before: seq<Row>, after: seq<Row>, t: string) {
    && |after| == |before|
    && (forall i :: 0 <= i < |after| && after[i].covered.tenant == t ==> after[i].hash.Some?)
    && (forall i :: 0 <= i < |after| && before[i].covered.tenant != t ==> after[i] == before[i])
    && (forall i :: 0 <= i < |after| && before[i].hash.Some? ==> after[i] == before[i])
  }

  lemma IsPendingRow(rows: seq<Row>, t: string, i: nat)
    requires TableOk(rows) && i < |rows| && rows[i].covered.tenant == t && rows[i].hash.None?
    ensures rows[i] in Pending(rows, t)
  {
    assert TenantOk(rows, t) && PendingOf(t, rows[i]);
  }

  lemma NoneLeft(rows: seq<Row>, t: string)
    requires TableOk(rows) && Pending(rows, t) == []
    ensures forall i :: 0 <= i < |rows| && rows[i].covered.tenant == t ==> rows[i].hash.Some?
  {
    assert TenantOk(rows, t);
    forall i | 0 <= i < |rows| && rows[i].covered.tenant == t
      ensures rows[i].hash.Some?
    {
      if rows[i].hash.None? { IsPendingRow(rows, t, i); }
    }
  }

  lemma NothingElse(before: seq<Row>, after: seq<Row>, t: string)
    requires TableOk(before) && TableOk(after) && OthersSame(before, after, t) && OnlySealed(before, after)
    ensures forall i :: 0 <= i < |after| && (before[i].covered.tenant != t || before[i].hash.Some?) ==>
      after[i] == before[i]
  {
    forall i | 0 <= i < |after| && (before[i].covered.tenant != t || before[i].hash.Some?)
      ensures after[i] == before[i]
    {
      GuardIs(false, Update, before[i], after[i]);
      if before[i].hash.None? { OtherRowStays(before, after, t, i); }
    }
  }

  lemma OtherRowStays(before: seq<Row>, after: seq<Row>, t: string, i: nat)
    requires TableOk(before) && TableOk(after) && OthersSame(before, after, t) && i < |before| == |after|
    requires before[i].covered.tenant != t && before[i].hash.None? && after[i].id == before[i].id
    ensures after[i] == before[i]
  {
    var u := before[i].covered.tenant;
    IsPendingRow(before, u, i);
    assert Pending(after, u) == Pending(before, u);
    PendingInTable(after, u, before[i]);
    SameIdSameRow(after, i, before[i]);
  }

  lemma PendingInTable(rows: seq<Row>, t: string, r: Row)
    requires TableOk(rows) && r in Pending(rows, t)
    ensures r in rows
  {
    assert TenantOk(rows, t);
  }

  lemma SameIdSameRow(rows: seq<Row>, i: nat, r: Row)
    requires DistinctIds(rows) && i < |rows| && r in rows && r.id == rows[i].id
    ensures rows[i] == r
  {
    var j :| 0 <= j < |rows| && rows[j] == r;
    assert !(i < j) && !(j < i);
  }

  lemma NextIsThere(before: seq<Row>, rows: seq<Row>, t: string, c0: seq<Row>, p0: seq<Row>, k: nat)
    requires SealedUpTo(before, rows, t, c0, p0, k) && k < |p0|
    ensures p0[k] in rows && PendingOf(t, p0[k])
  {
    assert TenantOk(rows, t) && Pending(rows, t)[0] == p0[k];
  }

  lemma SealStep(before: seq<Row>, rows: seq<Row>, t: string, c0: seq<Row>, p0: seq<Row>, k: nat, i: nat,
                 row: Row, prev: Hash)
    requires SealedUpTo(before, rows, t, c0, p0, k) && k < |p0| && i < |rows| && rows[i] == p0[k]
    requires row.chainSeq.Some? && row == Seal(rows[i], row.chainSeq.value, prev)
    requires IsHead(rows, t, row.chainSeq.value - 1, prev)
    ensures SealedUpTo(before, rows[i := row], t, c0, p0, k + 1)
    ensures IsHead(rows[i := row], t, row.chainSeq.value, row.hash.value)
  {
    NextIsThere(before, rows, t, c0, p0, k);
    assert Pending(rows, t)[0] == p0[k];
    SealOne(rows, i, t, row);
    SealingStep(before, rows, i, row);
    NextPrefix(c0, p0, k, Chain(rows, t), row);
  }

  lemma BatchStep(before: seq<Row>, mid: seq<Row>, rows: seq<Row>, t: string, c0: seq<Row>, p0: seq<Row>,
                  k: nat, n: nat)
    requires SealedUpTo(before, mid, t, c0, p0, k) && TableOk(rows) && k + n <= |p0|
    requires Chain(rows, t) == ExtendChain(Chain(mid, t), Pending(mid, t)[..n])
    requires Pending(rows, t) == Pending(mid, t)[n..]
    requires OthersSame(mid, rows, t) && OnlySealed(mid, rows)
    ensures SealedUpTo(before, rows, t, c0, p0, k + n)
  {
    BatchOfBatch(c0, p0, k, n);
    OnlySealedTwice(before, mid, rows);
  }

  lemma BatchOfBatch(c0: seq<Row>, p0: seq<Row>, k: nat, n: nat)
    requires k + n <= |p0|
    ensures ExtendChain(ExtendChain(c0, p0[..k]), p0[k..][..n]) == ExtendChain(c0, p0[..k + n])
    ensures p0[k..][n..] == p0[k + n..]
  {
    ExtendTwice(c0, p0[..k], p0[k..][..n]);
    assert p0[..k] + p0[k..][..n] == p0[..k + n];
  }

  lemma NextPrefix(c0: seq<Row>, p0: seq<Row>, k: nat, c: seq<Row>, row: Row)
    requires k < |p0| && c == ExtendChain(c0, p0[..k])
    requires row == Seal(p0[k], HeadSeq(c) + 1, HeadHash(c))
    ensures c + [row] == ExtendChain(c0, p0[..k + 1])
    ensures HeadSeq(c + [row]) == HeadSeq(c) + 1 && HeadHash(c + [row]) == row.hash.value
    ensures p0[k..][1..] == p0[k + 1..]
  {
    ExtendTwice(c0, p0[..k], [p0[k]]);
    ExtendOne(c, [p0[k]]);
    assert ExtendChain(c, [p0[k]]) == c + [row];
    assert p0[..k] + [p0[k]] == p0[..k + 1];
  }

  lemma SealingStep(before: seq<Row>, rows: seq<Row>, i: nat, row: Row)
    requires OnlySealed(before, rows) && i < |rows|
    requires rows[i].hash.None? && row.hash.Some? && Core(row) == Core(rows[i])
    ensures OnlySealed(before, rows[i := row])
  {
  }

  lemma OnlySealedTwice(a: seq<Row>, b: seq<Row>, c: seq<Row>)
    requires OnlySealed(a, b) && OnlySealed(b, c)
    ensures OnlySealed(a, c)
  {
  }

  lemma SameFactsTwice(a: seq<Row>, b: seq<Row>, c: seq<Row>)
    requires SameFacts(a, b) && SameFacts(b, c)
    ensures SameFacts(a, c)
  {
    forall u
      ensures Attests(Chain(a, u), Chain(c, u))
    {
      assert Attests(Chain(a, u), Chain(b, u)) && Attests(Chain(b, u), Chain(c, u));
    }
  }
}
