/** Rows of the CDC lake and the two SQL reductions to "newest version per key"
    (core/app/analytics/snapshot.py, core/app/analytics/aggregate.py). */
module LakeRows {
  import opened Wrappers
  import opened Seqs

  datatype Op = Insert | Update | Delete

  /** One change: key, version (`_lsn`, `_seq`), flush time in seconds and the other columns. */
  datatype Row = Row(pk: string, lsn: int, seqNo: Option<int>, ts: real, op: Op, data: string)

  /** `COALESCE(_seq, -1)`. */
  function SeqNo(r: Row): int {
    if r.seqNo.Some? then r.seqNo.value else -1
  }

  /** `a` comes strictly before `b` in `ORDER BY _lsn DESC, COALESCE(_seq, -1) DESC`. */
  predicate Newer(a: Row, b: Row) {
    a.lsn > b.lsn || (a.lsn == b.lsn && SeqNo(a) > SeqNo(b))
  }

  ghost predicate IsNewest(r: Row, rows: set<Row>) {
    r in rows && forall s :: s in rows && s.pk == r.pk ==> !Newer(s, r)
  }

  ghost predicate OnePerKey(out: seq<Row>) {
    forall i, j :: 0 <= i < j < |out| ==> out[i].pk != out[j].pk
  }

  ghost predicate HasKey(out: seq<Row>, pk: string) {
    exists i :: 0 <= i < |out| && out[i].pk == pk
  }

  /** A possible answer of `SELECT * FROM rows QUALIFY row_number() OVER (PARTITION BY pk ORDER
      BY version DESC) = 1`: one row per key, none beaten by another. Rows with equal versions
      are left to the engine, and so is the order of the answer. */
  ghost predicate IsWindow(rows: set<Row>, out: seq<Row>) {
    && OnePerKey(out)
    && (forall i :: 0 <= i < |out| ==> IsNewest(out[i], rows))
    && (forall r :: r in rows ==> HasKey(out, r.pk))
  }

  function Rows(s: seq<Row>): set<Row> {
    set r | r in s
  }

  function Keys(rows: set<Row>): set<string> {
    set r | r in rows :: r.pk
  }

  function AntiJoin(base: seq<Row>, keys: set<string>): seq<Row> {
    Filter(base, (r: Row) => r.pk !in keys)
  }

  function SemiJoin(base: seq<Row>, keys: set<string>): seq<Row> {
    Filter(base, (r: Row) => r.pk in keys)
  }

  /** A possible answer of `latest_per_key`: untouched keys straight from `base`, the window
      only over the keys the delta touches. Equality of multisets counts every row. */
  ghost predicate IsLatestPerKey(base: seq<Row>, delta: set<Row>, out: seq<Row>) {
    exists touched :: IsTouchedWindow(base, delta, touched) &&
      multiset(out) == multiset(AntiJoin(base, Keys(delta)) + touched)
  }

  ghost predicate IsTouchedWindow(base: seq<Row>, delta: set<Row>, touched: seq<Row>) {
    IsWindow(Rows(SemiJoin(base, Keys(delta))) + delta, touched)
  }

  // ---------------------------------------------------------------- the SQL engine

  /** Position of a key in a reduced list, `|out|` when absent. */
  method FindKey(out: seq<Row>, pk: string) returns (i: nat)
    ensures i <= |out|
    ensures i < |out| ==> out[i].pk == pk
    ensures i == |out| ==> !HasKey(out, pk)
  {
    i := 0;
    while i < |out| && out[i].pk != pk
      invariant i <= |out|
      invariant forall j :: 0 <= j < i ==> out[j].pk != pk
    {
      i := i + 1;
    }
  }

  /** The engine's window over a set of rows, read one by one in any order. */
  method Window(rows: set<Row>) returns (out: seq<Row>)
    ensures IsWindow(rows, out)
  {
    out := [];
    var todo := rows;
    ghost var done: set<Row> := {};
    while todo != {}
      invariant rows == done + todo && done !! todo
      invariant IsWindow(done, out)
      decreases |todo|
    {
      ghost var member := PickOne(todo);
      var r: Row :| r in todo;
      var i := FindKey(out, r.pk);
      if i == |out| {
        WindowNewKey(done, out, r);
        out := out + [r];
      } else if Newer(r, out[i]) {
        WindowReplace(done, out, r, i);
        out := out[i := r];
      } else {
        WindowKeep(done, out, r, i);
      }
      todo, done := todo - {r}, done + {r};
    }
    assert done == rows;
  }

  lemma WindowNewKey(rows: set<Row>, out: seq<Row>, r: Row)
    requires IsWindow(rows, out) && !HasKey(out, r.pk)
    ensures IsWindow(rows + {r}, out + [r])
  {
    var out' := out + [r];
    forall s | s in rows + {r}
      ensures HasKey(out', s.pk)
    {
      if s == r {
        assert out'[|out|].pk == s.pk;
      } else {
        KeptKey(out, out', s.pk);
      }
    }
    forall i | 0 <= i < |out'|
      ensures IsNewest(out'[i], rows + {r})
    {
      if i < |out| {
        assert out'[i] == out[i] && IsNewest(out[i], rows);
      } else {
        assert forall s :: s in rows ==> s.pk != r.pk;
      }
    }
  }

  lemma KeptKey(out: seq<Row>, out': seq<Row>, pk: string)
    requires |out| <= |out'| && forall i :: 0 <= i < |out| ==> out'[i].pk == out[i].pk
    requires HasKey(out, pk)
    ensures HasKey(out', pk)
  {
    var i :| 0 <= i < |out| && out[i].pk == pk;
    assert out'[i].pk == pk;
  }

  lemma WindowReplace(rows: set<Row>, out: seq<Row>, r: Row, i: nat)
    requires IsWindow(rows, out) && i < |out| && out[i].pk == r.pk && Newer(r, out[i])
    ensures IsWindow(rows + {r}, out[i := r])
  {
    var out' := out[i := r];
    forall s | s in rows + {r}
      ensures HasKey(out', s.pk)
    {
      if s == r { assert out[i].pk == s.pk; }
      assert HasKey(out, s.pk) by {
        if s == r { assert out[i].pk == s.pk; }
      }
      KeptKey(out, out', s.pk);
    }
    forall j | 0 <= j < |out'|
      ensures IsNewest(out'[j], rows + {r})
    {
      assert IsNewest(out[i], rows) && IsNewest(out[j], rows);
    }
  }

  lemma WindowKeep(rows: set<Row>, out: seq<Row>, r: Row, i: nat)
    requires IsWindow(rows, out) && i < |out| && out[i].pk == r.pk && !Newer(r, out[i])
    ensures IsWindow(rows + {r}, out)
  {
    forall s | s in rows + {r}
      ensures HasKey(out, s.pk)
    {
      if s == r { assert out[i].pk == s.pk; }
    }
    forall j | 0 <= j < |out|
      ensures IsNewest(out[j], rows + {r})
    {
      assert IsNewest(out[j], rows);
    }
  }

  /** The engine's answer to `latest_per_key`. */
  method LatestPerKey(base: seq<Row>, delta: set<Row>) returns (out: seq<Row>)
    ensures IsLatestPerKey(base, delta, out)
  {
    var keys := Keys(delta);
    var touched := Window(Rows(SemiJoin(base, keys)) + delta);
    out := AntiJoin(base, keys) + touched;
    assert IsTouchedWindow(base, delta, touched);
  }

  // ---------------------------------------------------------------- windows as sets

  /** A window does not depend on the order of its rows. */
  lemma WindowPermuted(rows: set<Row>, a: seq<Row>, b: seq<Row>)
    requires IsWindow(rows, a) && multiset(a) == multiset(b)
    ensures IsWindow(rows, b)
  {
    MultisetMembership(a, b);
    forall i, j | 0 <= i < j < |b|
      ensures b[i].pk != b[j].pk
    {
      if b[i].pk == b[j].pk {
        assert b[i] in a && b[j] in a;
        assert b[i] == b[j];
        TwiceIn(b, i, j);
        NoDupCount(a, b[i]);
      }
    }
    forall i | 0 <= i < |b|
      ensures IsNewest(b[i], rows)
    {
      assert b[i] in a;
    }
    forall r | r in rows
      ensures HasKey(b, r.pk)
    {
      var i :| 0 <= i < |a| && a[i].pk == r.pk;
      assert a[i] in b;
      var j :| 0 <= j < |b| && b[j] == a[i];
    }
  }

  /** `latest_per_key` gives the same rows, with the same multiplicities, as one window over
      everything, provided the base has one row per key. Versions may tie. */
  lemma LatestPerKeyIsWindow(base: seq<Row>, delta: set<Row>, out: seq<Row>)
    requires OnePerKey(base)
    ensures IsLatestPerKey(base, delta, out) <==> IsWindow(Rows(base) + delta, out)
  {
    if IsLatestPerKey(base, delta, out) {
      var touched :| IsTouchedWindow(base, delta, touched) &&
        multiset(out) == multiset(AntiJoin(base, Keys(delta)) + touched);
      UntouchedPlusTouched(base, delta, touched);
      WindowPermuted(Rows(base) + delta, AntiJoin(base, Keys(delta)) + touched, out);
    }
    if IsWindow(Rows(base) + delta, out) {
      SplitWindow(base, delta, out);
    }
  }

  lemma AntiOnePerKey(base: seq<Row>, keys: set<string>)
    requires OnePerKey(base)
    ensures OnePerKey(AntiJoin(base, keys))
  {
    var pk := (r: Row) => r.pk;
    FilterDistinct(base, (r: Row) => r.pk !in keys, pk);
    var f := AntiJoin(base, keys);
    assert forall i, j :: 0 <= i < j < |f| ==> pk(f[i]) != pk(f[j]);
  }

  lemma OneRowOfKey(base: seq<Row>, a: Row, b: Row)
    requires OnePerKey(base) && a in base && b in base && a.pk == b.pk
    ensures a == b
  {
  }

  lemma UntouchedAreNewest(base: seq<Row>, delta: set<Row>)
    requires OnePerKey(base)
    ensures var anti := AntiJoin(base, Keys(delta));
            forall i :: 0 <= i < |anti| ==> anti[i].pk !in Keys(delta) && IsNewest(anti[i], Rows(base) + delta)
  {
    var anti, all := AntiJoin(base, Keys(delta)), Rows(base) + delta;
    forall i | 0 <= i < |anti|
      ensures anti[i].pk !in Keys(delta) && IsNewest(anti[i], all)
    {
      assert anti[i] in anti;
      forall s | s in all && s.pk == anti[i].pk
        ensures s == anti[i]
      {
        OneRowOfKey(base, s, anti[i]);
      }
    }
  }

  lemma TouchedAreNewest(base: seq<Row>, delta: set<Row>, touched: seq<Row>)
    requires IsTouchedWindow(base, delta, touched)
    ensures forall i :: 0 <= i < |touched| ==>
      touched[i].pk in Keys(delta) && IsNewest(touched[i], Rows(base) + delta)
  {
    var keys := Keys(delta);
    var part := Rows(SemiJoin(base, keys)) + delta;
    forall i | 0 <= i < |touched|
      ensures touched[i].pk in keys && IsNewest(touched[i], Rows(base) + delta)
    {
      assert IsNewest(touched[i], part);
      forall s | s in Rows(base) + delta && s.pk == touched[i].pk
        ensures s in part
      {
      }
    }
  }

  lemma UntouchedPlusTouched(base: seq<Row>, delta: set<Row>, touched: seq<Row>)
    requires OnePerKey(base) && IsTouchedWindow(base, delta, touched)
    ensures IsWindow(Rows(base) + delta, AntiJoin(base, Keys(delta)) + touched)
  {
    var keys := Keys(delta);
    var anti, all := AntiJoin(base, keys), Rows(base) + delta;
    AntiOnePerKey(base, keys);
    UntouchedAreNewest(base, delta);
    TouchedAreNewest(base, delta, touched);
    forall r | r in all
      ensures HasKey(anti + touched, r.pk)
    {
      if r.pk in keys {
        assert r in Rows(SemiJoin(base, keys)) + delta;
        var i :| 0 <= i < |touched| && touched[i].pk == r.pk;
        assert (anti + touched)[|anti| + i].pk == r.pk;
      } else {
        assert r in anti;
        var i :| 0 <= i < |anti| && anti[i] == r;
        assert (anti + touched)[i].pk == r.pk;
      }
    }
    WindowConcat(all, anti, touched, keys);
  }

  lemma WindowConcat(all: set<Row>, a: seq<Row>, b: seq<Row>, keys: set<string>)
    requires OnePerKey(a) && OnePerKey(b)
    requires forall i :: 0 <= i < |a| ==> a[i].pk !in keys && IsNewest(a[i], all)
    requires forall i :: 0 <= i < |b| ==> b[i].pk in keys && IsNewest(b[i], all)
    requires forall r :: r in all ==> HasKey(a + b, r.pk)
    ensures IsWindow(all, a + b)
  {
    forall i | 0 <= i < |a + b|
      ensures IsNewest((a + b)[i], all)
    {
      if i >= |a| { assert (a + b)[i] == b[i - |a|]; }
    }
  }

  lemma {:induction false} FilterSplit(s: seq<Row>, keys: set<string>)
    ensures multiset(s) == multiset(AntiJoin(s, keys) + SemiJoin(s, keys))
  {
    if s != [] {
      var init, last := s[..|s| - 1], s[|s| - 1];
      FilterSplit(init, keys);
      assert s == init + [last];
      assert AntiJoin(s, keys) == AntiJoin(init, keys) + if last.pk !in keys then [last] else [];
      assert SemiJoin(s, keys) == SemiJoin(init, keys) + if last.pk in keys then [last] else [];
    }
  }

  lemma SplitWindow(base: seq<Row>, delta: set<Row>, out: seq<Row>)
    requires OnePerKey(base) && IsWindow(Rows(base) + delta, out)
    ensures IsLatestPerKey(base, delta, out)
  {
    var keys := Keys(delta);
    var anti, touched, all := AntiJoin(out, keys), SemiJoin(out, keys), Rows(base) + delta;
    FilterSplit(out, keys);
    AntiOnePerKey(base, keys);
    AntiOnePerKey(out, keys);
    UntouchedRows(base, delta, out);
    SameElementsSameMultiset(anti, AntiJoin(base, keys));
    TouchedRows(base, delta, out);
    assert IsTouchedWindow(base, delta, touched);
    assert multiset(out) == multiset(AntiJoin(base, keys) + touched);
  }

  lemma UntouchedRows(base: seq<Row>, delta: set<Row>, out: seq<Row>)
    requires OnePerKey(base) && IsWindow(Rows(base) + delta, out)
    ensures Within(AntiJoin(out, Keys(delta)), AntiJoin(base, Keys(delta)))
    ensures Within(AntiJoin(base, Keys(delta)), AntiJoin(out, Keys(delta)))
  {
    var keys, all := Keys(delta), Rows(base) + delta;
    var fromOut, fromBase := AntiJoin(out, keys), AntiJoin(base, keys);
    forall i | 0 <= i < |fromOut|
      ensures fromOut[i] in fromBase
    {
      assert fromOut[i] in fromOut;
      var j :| 0 <= j < |out| && out[j] == fromOut[i];
      assert IsNewest(out[j], all);
    }
    forall i | 0 <= i < |fromBase|
      ensures fromBase[i] in fromOut
    {
      var r := fromBase[i];
      assert r in fromBase && r in all;
      var j :| 0 <= j < |out| && out[j].pk == r.pk;
      assert IsNewest(out[j], all);
      OneRowOfKey(base, out[j], r);
      assert out[j] in out;
    }
  }

  lemma TouchedRows(base: seq<Row>, delta: set<Row>, out: seq<Row>)
    requires OnePerKey(base) && IsWindow(Rows(base) + delta, out)
    ensures IsTouchedWindow(base, delta, SemiJoin(out, Keys(delta)))
  {
    var keys, all := Keys(delta), Rows(base) + delta;
    var touched, part := SemiJoin(out, keys), Rows(SemiJoin(base, keys)) + delta;
    var pk := (r: Row) => r.pk;
    FilterDistinct(out, (r: Row) => r.pk in keys, pk);
    assert forall i, j :: 0 <= i < j < |touched| ==> pk(touched[i]) != pk(touched[j]);
    forall i | 0 <= i < |touched|
      ensures IsNewest(touched[i], part)
    {
      assert touched[i] in touched;
      var j :| 0 <= j < |out| && out[j] == touched[i];
      assert IsNewest(out[j], all);
    }
    forall r | r in part
      ensures HasKey(touched, r.pk)
    {
      assert r in all;
      var j :| 0 <= j < |out| && out[j].pk == r.pk;
      assert out[j] in touched;
      var i :| 0 <= i < |touched| && touched[i] == out[j];
    }
  }

  /** Reducing in two stages is reducing once; when versions identify rows, and only the choice
      among ties can make a difference, both have the same answers. */
  lemma WindowOfWindow(earlier: set<Row>, later: set<Row>, base: seq<Row>, out: seq<Row>)
    requires IsWindow(earlier, base)
    ensures IsWindow(Rows(base) + later, out) ==> IsWindow(earlier + later, out)
    ensures VersionsIdentify(earlier) ==> (IsWindow(Rows(base) + later, out) <==> IsWindow(earlier + later, out))
  {
    if IsWindow(Rows(base) + later, out) {
      TwoStagesAreOne(earlier, later, base, out);
    }
    if VersionsIdentify(earlier) && IsWindow(earlier + later, out) {
      OneStageIsTwo(earlier, later, base, out);
    }
  }

  lemma OneStageIsTwo(earlier: set<Row>, later: set<Row>, base: seq<Row>, out: seq<Row>)
    requires IsWindow(earlier, base) && VersionsIdentify(earlier) && IsWindow(earlier + later, out)
    ensures IsWindow(Rows(base) + later, out)
  {
    assert Rows(base) <= earlier by {
      forall r | r in Rows(base)
        ensures r in earlier
      {
        var k :| 0 <= k < |base| && base[k] == r;
        assert IsNewest(base[k], earlier);
      }
    }
    forall i | 0 <= i < |out|
      ensures IsNewest(out[i], Rows(base) + later)
    {
      assert IsNewest(out[i], earlier + later);
      if out[i] in earlier {
        var k :| 0 <= k < |base| && base[k].pk == out[i].pk;
        assert IsNewest(base[k], earlier);
        assert base[k] == out[i];
      }
    }
  }

  lemma TwoStagesAreOne(earlier: set<Row>, later: set<Row>, base: seq<Row>, out: seq<Row>)
    requires IsWindow(earlier, base) && IsWindow(Rows(base) + later, out)
    ensures IsWindow(earlier + later, out)
  {
    forall i | 0 <= i < |out|
      ensures IsNewest(out[i], earlier + later)
    {
      assert IsNewest(out[i], Rows(base) + later);
      if out[i] in base {
        var k :| 0 <= k < |base| && base[k] == out[i];
        assert IsNewest(base[k], earlier);
      }
      forall s | s in earlier + later && s.pk == out[i].pk
        ensures !Newer(s, out[i])
      {
        if s in earlier {
          var k :| 0 <= k < |base| && base[k].pk == s.pk;
          assert IsNewest(base[k], earlier) && base[k] in Rows(base) + later;
        }
      }
    }
    forall r | r in earlier + later
      ensures HasKey(out, r.pk)
    {
      if r in earlier {
        var k :| 0 <= k < |base| && base[k].pk == r.pk;
        assert base[k] in Rows(base) + later;
      }
    }
  }

  /** Every row of a key loses to a row of the key that is in the window. */
  lemma WindowHasNewest(rows: set<Row>, out: seq<Row>, r: Row) returns (i: nat)
    requires IsWindow(rows, out) && r in rows
    ensures i < |out| && out[i].pk == r.pk && out[i] in rows && !Newer(r, out[i])
  {
    var k :| 0 <= k < |out| && out[k].pk == r.pk;
    i := k;
    assert IsNewest(out[k], rows);
  }

  /** A window on its columns: each key of the rows once, by one of its rows, with the highest `_lsn`
      and, at an equal `_lsn`, the highest `_seq`, a missing one counting as -1. */
  lemma WindowHolds(rows: set<Row>, out: seq<Row>, r: Row) returns (i: nat)
    requires IsWindow(rows, out) && r in rows
    ensures i < |out| && out[i] in rows && out[i].pk == r.pk
    ensures forall j :: 0 <= j < |out| && out[j].pk == r.pk ==> j == i
    ensures r.lsn <= out[i].lsn
    ensures r.lsn == out[i].lsn ==>
      (if r.seqNo.Some? then r.seqNo.value else -1) <= (if out[i].seqNo.Some? then out[i].seqNo.value else -1)
  {
    i := WindowHasNewest(rows, out, r);
  }

  // ---------------------------------------------------------------- one answer

  /** Per key, the version identifies the row: a row present twice (after an interrupted
      compaction) is the same row. */
  ghost predicate VersionsIdentify(rows: set<Row>) {
    forall a, b :: a in rows && b in rows && a.pk == b.pk && !Newer(a, b) && !Newer(b, a) ==> a == b
  }

  lemma WindowWithin(rows: set<Row>, a: seq<Row>, b: seq<Row>)
    requires VersionsIdentify(rows) && IsWindow(rows, a) && IsWindow(rows, b)
    ensures Within(a, b)
  {
    forall i | 0 <= i < |a|
      ensures a[i] in b
    {
      assert IsNewest(a[i], rows);
      var j := WindowHasNewest(rows, b, a[i]);
      assert IsNewest(b[j], rows);
      assert a[i] == b[j];
    }
  }

  /** Rows served after the tombstones are dropped: `WHERE _op != 'delete'`. */
  function Live(out: seq<Row>): seq<Row> {
    Filter(out, (r: Row) => r.op != Delete)
  }

  /** When versions identify rows, every possible answer is the same bag of rows. */
  lemma WindowUnique(rows: set<Row>, a: seq<Row>, b: seq<Row>)
    requires VersionsIdentify(rows) && IsWindow(rows, a) && IsWindow(rows, b)
    ensures multiset(a) == multiset(b)
    ensures multiset(Live(a)) == multiset(Live(b))
  {
    WindowWithin(rows, a, b);
    WindowWithin(rows, b, a);
    SameElementsSameMultiset(a, b);
    LiveOnePerKey(a);
    LiveOnePerKey(b);
    LiveWithin(a, b);
    LiveWithin(b, a);
    SameElementsSameMultiset(Live(a), Live(b));
  }

  lemma LiveOnePerKey(out: seq<Row>)
    requires OnePerKey(out)
    ensures OnePerKey(Live(out))
  {
    var pk := (r: Row) => r.pk;
    FilterDistinct(out, (r: Row) => r.op != Delete, pk);
    var f := Live(out);
    assert forall i, j :: 0 <= i < j < |f| ==> pk(f[i]) != pk(f[j]);
  }

  lemma LiveWithin(a: seq<Row>, b: seq<Row>)
    requires Within(a, b)
    ensures Within(Live(a), Live(b))
  {
    var f := Live(a);
    forall i | 0 <= i < |f|
      ensures f[i] in Live(b)
    {
      assert f[i] in f;
      var j :| 0 <= j < |a| && a[j] == f[i];
      assert a[j] in b;
    }
  }

  /** What the live view means: a key is served exactly when its newest change is not a
      deletion, and the row served is that change. */
  lemma LiveMeansNewestNotDeleted(rows: set<Row>, out: seq<Row>, r: Row)
    requires VersionsIdentify(rows) && IsWindow(rows, out)
    ensures r in Live(out) <==> IsNewest(r, rows) && r.op != Delete
  {
    if r in Live(out) {
      assert r in out;
      var i :| 0 <= i < |out| && out[i] == r;
      assert IsNewest(out[i], rows);
    }
    if IsNewest(r, rows) {
      var i := WindowHasNewest(rows, out, r);
      assert IsNewest(out[i], rows);
      assert out[i] == r;
    }
  }

  /** The live view on its columns: a row is served if and only if it is a raw row, not a deletion, and
      no other row of its key has a higher `_lsn`, or the same and a higher `_seq`. */
  lemma LiveHolds(rows: set<Row>, out: seq<Row>, r: Row)
    requires VersionsIdentify(rows) && IsWindow(rows, out)
    ensures multiset(Live(out))[r] <= 1
    ensures r in Live(out) <==> r in rows && r.op != Delete && forall s :: s in rows && s.pk == r.pk ==>
      s.lsn < r.lsn || (s.lsn == r.lsn &&
        (if s.seqNo.Some? then s.seqNo.value else -1) <= (if r.seqNo.Some? then r.seqNo.value else -1))
  {
    LiveMeansNewestNotDeleted(rows, out, r);
    LiveOnePerKey(out);
    NoDupCount(Live(out), r);
  }

  /** A window exists for every finite set of rows. */
  lemma {:induction false} WindowExists(rows: set<Row>) returns (out: seq<Row>)
    ensures IsWindow(rows, out)
  {
    if rows == {} {
      out := [];
    } else {
      var r := PickOne(rows);
      var rest := rows - {r};
      var o := WindowExists(rest);
      assert rows == rest + {r};
      if HasKey(o, r.pk) {
        var i :| 0 <= i < |o| && o[i].pk == r.pk;
        if Newer(r, o[i]) {
          WindowReplace(rest, o, r, i);
          out := o[i := r];
        } else {
          WindowKeep(rest, o, r, i);
          out := o;
        }
      } else {
        WindowNewKey(rest, o, r);
        out := o + [r];
      }
    }
  }
}
