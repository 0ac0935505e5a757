/** Whole runs of the audit log: inserts, sealing, erasures and retention passes, committed or
    rolled back, with the bucket of archives beside the table. */
module AuditRuns {
  import opened Seqs
  import opened Wrappers
  import opened AuditChain
  import opened AuditLog
  import opened AuditStore
  import opened AuditArchives
  import opened AuditRetention

  /** Each step is what one method promises: `Store.Append`, `Store.SealRows`,
      `Store.ErasePayloads` and `Retention.RetentionTask`. */
  datatype Step =
    | DoInsert(row: Row)
    | DoSeal(t: string, n: nat)
    | DoErase
    | DoPass(cutoff: int, r: Result)

  ghost predicate Next(w: Ledger, w': Ledger, step: Step) {
    match step
    case DoInsert(row) =>
      && row.hash.None? && row.chainSeq.None? && (forall i :: 0 <= i < |w.rows| ==> w.rows[i].id != row.id)
      && w' == w.(rows := w.rows + [row])
    case DoSeal(t, n) => TableOk(w'.rows) && w' == w.(rows := w'.rows) && SealsFirst(w.rows, w'.rows, t, n)
    case DoErase => TableOk(w'.rows) && w' == w.(rows := w'.rows) && SameFacts(w.rows, w'.rows)
    case DoPass(cutoff, r) => TableOk(w'.rows) && Ended(w, w', cutoff, r)
  }

  ghost predicate SealsFirst(rows: seq<Row>, rows': seq<Row>, t: string, n: nat) {
    && n <= |Pending(rows, t)| && OthersSame(rows, rows', t)
    && Chain(rows', t) == ExtendChain(Chain(rows, t), Pending(rows, t)[..n])
    && Pending(rows', t) == Pending(rows, t)[n..]
  }

  /** Sealing would restart at 1 although the tenant has archives. */
  predicate Restarts(v: View) {
    v.chain == [] && v.keys != [] && v.pending != []
  }

  /** The step seals no tenant that was emptied after archiving; what a rolled back pass stored for
      such a tenant, if anything, took an unused key. */
  ghost predicate Continues(w: Ledger, w': Ledger, step: Step) {
    match step
    case DoSeal(t, n) => n > 0 ==> !Restarts(ViewOf(w, t))
    case DoPass(cutoff, r) =>
      forall t :: HasStale(w.rows, t, cutoff) ==>
        !Restarts(ViewOf(w, t)) || (r.UploadFailed? && Harmless(ViewOf(w, t), ViewOf(w', t), t, cutoff))
    case _ => true
  }

  predicate Harmless(v: View, v': View, t: string, cutoff: int) {
    v'.objects == v.objects || Front(v, cutoff) == [] || KeyFor(t, Front(v, cutoff)) !in v.keys
  }

  ghost predicate IsRun(run: seq<Ledger>, steps: seq<Step>) {
    && run != [] && |steps| == |run| - 1 && run[0] == Ledger([], [], map[])
    && forall i :: 0 <= i < |steps| ==> StepOk(run, steps, i)
  }

  ghost predicate StepOk(run: seq<Ledger>, steps: seq<Step>, i: nat)
    requires i < |steps| == |run| - 1
  {
    Next(run[i], run[i + 1], steps[i])
  }

  ghost predicate StepContinues(run: seq<Ledger>, steps: seq<Step>, i: nat)
    requires i < |steps| == |run| - 1
  {
    Continues(run[i], run[i + 1], steps[i])
  }

  ghost predicate ContinuingRun(run: seq<Ledger>, steps: seq<Step>) {
    IsRun(run, steps) && forall i :: 0 <= i < |steps| ==> StepContinues(run, steps, i)
  }

  // ---------------------------------------------------------------- one tenant

  /** Everything ever sealed for the tenant: its archives as they read now, then its chain. */
  function Sealed(v: View): seq<Row> {
    Archived(v) + v.chain
  }

  /** Each archive is still stored under the range of its own rows. */
  ghost predicate KeysOk(v: View, t: string) {
    forall k :: k in v.keys ==> k in v.objects && v.objects[k] != [] && k == KeyFor(t, v.objects[k])
  }

  /** Later archives hold later rows: no two keys share a number. */
  ghost predicate Disjoint(keys: seq<Key>) {
    forall i, j :: 0 <= i < j < |keys| ==> keys[i].last < keys[j].first
  }

  ghost predicate ViewInv(v: View, t: string) {
    ChainOk(Sealed(v)) && KeysOk(v, t) && Disjoint(v.keys)
  }

  /** The same rows in the same places, perhaps with more behind, payloads aside. */
  ghost predicate Attested(a: seq<Row>, b: seq<Row>) {
    && |a| <= |b|
    && forall i :: 0 <= i < |a| ==> SameButPayload(a[i], b[i])
  }

  lemma AttestedItself(a: seq<Row>)
    ensures Attested(a, a)
  {
  }

  lemma AttestedTwice(a: seq<Row>, b: seq<Row>, c: seq<Row>)
    requires Attested(a, b) && Attested(b, c)
    ensures Attested(a, c)
  {
    forall i | 0 <= i < |a|
      ensures SameButPayload(a[i], c[i])
    {
      assert SameButPayload(a[i], b[i]) && SameButPayload(b[i], c[i]);
    }
  }

  /** Archives and everything sealed next are one chain, unless sealing restarts. */
  lemma SealingContinues(v: View, n: nat)
    requires ChainOk(Sealed(v)) && n <= |v.pending| && (n > 0 ==> !Restarts(v))
    ensures ChainOk(Archived(v) + ExtendChain(v.chain, v.pending[..n]))
  {
    var batch := v.pending[..n];
    if v.chain != [] {
      ContinuesBehindHead(Archived(v), v.chain, batch);
    } else if n == 0 {
      assert ExtendChain(v.chain, batch) == v.chain;
    } else {
      assert Archived(v) == [];
      assert Archived(v) + v.chain == v.chain;
      ExtendKeepsChain(v.chain, batch);
      assert Archived(v) + ExtendChain(v.chain, batch) == ExtendChain(v.chain, batch);
    }
  }

  lemma {:induction false} KeyInArchive(keys: seq<Key>, objects: Bucket, k: Key) returns (pos: nat)
    requires k in keys && k in objects && objects[k] != []
    ensures pos < |ReadAll(keys, objects)| && ReadAll(keys, objects)[pos] == objects[k][|objects[k]| - 1]
  {
    var init, last := keys[..|keys| - 1], keys[|keys| - 1];
    if last == k {
      pos := |ReadAll(keys, objects)| - 1;
    } else {
      assert k in init;
      pos := KeyInArchive(init, objects, k);
    }
  }

  lemma {:induction false} ReadUnused(keys: seq<Key>, objects: Bucket, k: Key, batch: seq<Row>)
    requires k !in keys
    ensures ReadAll(keys, objects[k := batch]) == ReadAll(keys, objects)
  {
    if keys != [] {
      assert keys[|keys| - 1] in keys;
      ReadUnused(keys[..|keys| - 1], objects, k, batch);
    }
  }

  /** The next archive lies above all archives: its key is new. */
  lemma FrontIsAbove(v: View, t: string, cutoff: int)
    requires ViewInv(v, t) && ChainOk(Archived(v) + Full(v)) && Front(v, cutoff) != []
    ensures forall k :: k in v.keys ==> k.last < KeyFor(t, Front(v, cutoff)).first
    ensures KeyFor(t, Front(v, cutoff)) !in v.keys
  {
    var full, front := Full(v), Front(v, cutoff);
    var n := |Archived(v)|;
    FrontAndBack(v, cutoff);
    SuffixIsChain(Archived(v) + full, n);
    assert (Archived(v) + full)[n..] == full;
    PrefixNumbers(full, |front|, t, front);
    forall k | k in v.keys
      ensures k.last < KeyFor(t, front).first
    {
      var pos := KeyInArchive(v.keys, v.objects, k);
      RangesAreDisjoint(Archived(v), full, pos, 0);
    }
  }

  /** A committed pass over one tenant. */
  lemma PassKeepsView(v: View, t: string, cutoff: int)
    requires ViewInv(v, t) && !Restarts(v)
    ensures ViewInv(AfterPass(v, t, cutoff), t)
    ensures Attested(Sealed(v), Sealed(AfterPass(v, t, cutoff)))
  {
    assert v.pending[..|v.pending|] == v.pending;
    SealingContinues(v, |v.pending|);
    PassMovesFront(v, t, cutoff);
    PassKeepsKeys(v, t, cutoff);
    FullExtends(v);
  }

  lemma FullExtends(v: View)
    ensures Attested(Sealed(v), Archived(v) + Full(v))
  {
    var sealed := Extend(HeadSeq(v.chain), HeadHash(v.chain), v.pending);
    assert Archived(v) + Full(v) == Sealed(v) + sealed;
    AttestedPrefix(Sealed(v), sealed);
  }

  lemma AttestedPrefix(a: seq<Row>, b: seq<Row>)
    ensures Attested(a, a + b)
  {
    forall i | 0 <= i < |a|
      ensures SameButPayload(a[i], (a + b)[i])
    {
      assert (a + b)[i] == a[i];
    }
  }

  lemma SealedAfterPass(v: View, t: string, cutoff: int)
    ensures Sealed(AfterPass(v, t, cutoff)) == ReadAll(v.keys, WithFront(v, t, cutoff)) + Full(v)
  {
    HistoryAfterPass(v, t, cutoff);
    assert ExtendChain(Back(v, cutoff), []) == Back(v, cutoff);
  }

  lemma PassMovesFront(v: View, t: string, cutoff: int)
    requires ViewInv(v, t) && ChainOk(Archived(v) + Full(v))
    ensures Sealed(AfterPass(v, t, cutoff)) == Archived(v) + Full(v)
  {
    SealedAfterPass(v, t, cutoff);
    if Front(v, cutoff) != [] {
      FrontIsAbove(v, t, cutoff);
      ReadUnused(v.keys, v.objects, KeyFor(t, Front(v, cutoff)), Front(v, cutoff));
    }
  }

  lemma PassKeepsKeys(v: View, t: string, cutoff: int)
    requires ViewInv(v, t) && ChainOk(Archived(v) + Full(v))
    ensures KeysOk(AfterPass(v, t, cutoff), t) && Disjoint(AfterPass(v, t, cutoff).keys)
  {
    if Front(v, cutoff) != [] {
      FrontIsAbove(v, t, cutoff);
      NextKey(v.keys, KeyFor(t, Front(v, cutoff)));
    } else {
      assert v.keys + [] == v.keys;
    }
  }

  lemma NextKey(keys: seq<Key>, k: Key)
    requires Disjoint(keys) && forall j :: j in keys ==> j.last < k.first
    ensures Disjoint(keys + [k])
  {
    assert forall i :: 0 <= i < |keys| ==> keys[i] in keys;
  }

  /** A pass that was rolled back: an object stored on the way hides no archive. */
  lemma RollbackKeepsView(v: View, v': View, t: string, cutoff: int)
    requires ViewInv(v, t) && RolledBack(v, v', t, cutoff) && (!Restarts(v) || Harmless(v, v', t, cutoff))
    ensures ViewInv(v', t) && Sealed(v') == Sealed(v)
  {
    assert v.pending[..|v.pending|] == v.pending;
    if Front(v, cutoff) != [] && v'.objects != v.objects {
      if !Restarts(v) {
        SealingContinues(v, |v.pending|);
        FrontIsAbove(v, t, cutoff);
      }
      ReadUnused(v.keys, v.objects, KeyFor(t, Front(v, cutoff)), Front(v, cutoff));
    }
  }

  lemma EraseKeepsView(v: View, v': View, t: string)
    requires ViewInv(v, t) && v' == v.(chain := v'.chain, pending := v'.pending) && Attests(v.chain, v'.chain)
    ensures ViewInv(v', t) && Attested(Sealed(v), Sealed(v'))
  {
    AttestsBehind(Archived(v), v.chain, v'.chain);
    PayloadIsNotCovered(Sealed(v), Sealed(v'));
  }

  lemma AttestsBehind(archived: seq<Row>, a: seq<Row>, b: seq<Row>)
    requires |a| == |b| && forall i :: 0 <= i < |a| ==> SameButPayload(a[i], b[i])
    ensures Attested(archived + a, archived + b)
  {
    var n := |archived|;
    forall i | 0 <= i < n + |a|
      ensures SameButPayload((archived + a)[i], (archived + b)[i])
    {
      if i >= n {
        assert SameButPayload(a[i - n], b[i - n]);
      }
    }
  }

  lemma SealKeepsView(v: View, v': View, t: string, n: nat)
    requires ViewInv(v, t) && n <= |v.pending| && (n > 0 ==> !Restarts(v))
    requires v' == v.(chain := ExtendChain(v.chain, v.pending[..n]), pending := v.pending[n..])
    ensures ViewInv(v', t) && Attested(Sealed(v), Sealed(v'))
  {
    SealingContinues(v, n);
    assert v'.chain[..|v.chain|] == v.chain;
  }

  // ---------------------------------------------------------------- all tenants

  ghost predicate Inv(w: Ledger) {
    TableOk(w.rows) && forall t :: ViewInv(ViewOf(w, t), t)
  }

  /** Whatever the step, for each tenant the archives and the chain stay one chain, keys stay
      disjoint, and nothing that was sealed is lost. */
  lemma NextForTenant(w: Ledger, w': Ledger, step: Step, t: string)
    requires Inv(w) && Next(w, w', step) && Continues(w, w', step)
    ensures ViewInv(ViewOf(w', t), t) && Attested(Sealed(ViewOf(w, t)), Sealed(ViewOf(w', t)))
  {
    var v, v' := ViewOf(w, t), ViewOf(w', t);
    assert ViewInv(v, t);
    match step
    case DoInsert(row) =>
      InsertOne(w.rows, row);
    case DoSeal(u, n) =>
      if u == t { SealKeepsView(v, v', t, n); }
    case DoErase =>
      assert Attests(v.chain, v'.chain);
      EraseKeepsView(v, v', t);
    case DoPass(cutoff, r) =>
      if !HasStale(w.rows, t, cutoff) {
        assert Kept(w, w', t);
      } else if r.Deleted? {
        assert PassDone(w, w', t, cutoff);
        PassKeepsView(v, t, cutoff);
      } else {
        RollbackKeepsView(v, v', t, cutoff);
      }
  }

  lemma NextKeeps(w: Ledger, w': Ledger, step: Step)
    requires Inv(w) && Next(w, w', step) && Continues(w, w', step)
    ensures Inv(w')
  {
    if step.DoInsert? { InsertOne(w.rows, step.row); }
    forall t
      ensures ViewInv(ViewOf(w', t), t)
    {
      NextForTenant(w, w', step, t);
    }
  }

  lemma {:induction false} RunKeepsInv(run: seq<Ledger>, steps: seq<Step>, i: nat)
    requires ContinuingRun(run, steps) && i < |run|
    ensures Inv(run[i])
  {
    if i == 0 {
      forall t
        ensures TableOk(run[0].rows) && ViewInv(ViewOf(run[0], t), t)
      {
        EmptyTable(t);
      }
    } else {
      RunKeepsInv(run, steps, i - 1);
      assert StepOk(run, steps, i - 1) && StepContinues(run, steps, i - 1);
      NextKeeps(run[i - 1], run[i], steps[i - 1]);
    }
  }

  // ---------------------------------------------------------------- main results

  /** In every run that never seals an emptied tenant again, with erasures and with passes
      committed or rolled back: a tenant's archives, as they read now, and its chain verify as
      one chain; every archive is stored under its own range; ranges never meet. */
  lemma RunIsOneChain(run: seq<Ledger>, steps: seq<Step>, i: nat, t: string)
    requires ContinuingRun(run, steps) && i < |run|
    ensures ChainOk(Archived(ViewOf(run[i], t)) + Chain(run[i].rows, t))
    ensures KeysOk(ViewOf(run[i], t), t) && Disjoint(LogOf(run[i].log, t))
  {
    RunKeepsInv(run, steps, i);
    assert ViewInv(ViewOf(run[i], t), t);
  }

  /** What was sealed once can be read for ever, at the same place and but for its payload. */
  lemma SealedForEver(run: seq<Ledger>, steps: seq<Step>, i: nat, j: nat, t: string)
    requires ContinuingRun(run, steps) && i <= j < |run|
    ensures Attested(Sealed(ViewOf(run[i], t)), Sealed(ViewOf(run[j], t)))
  {
    var states := seq(|run|, k requires 0 <= k < |run| => Sealed(ViewOf(run[k], t)));
    forall k | 0 < k < |states|
      ensures Grows(states, k)
    {
      SealedNext(run, steps, k, t);
    }
    GrowsAlong(states, i, j);
  }

  ghost predicate Grows(states: seq<seq<Row>>, k: nat)
    requires 0 < k < |states|
  {
    Attested(states[k - 1], states[k])
  }

  lemma {:induction false} GrowsAlong(states: seq<seq<Row>>, i: nat, j: nat)
    requires i <= j < |states| && forall k :: 0 < k < |states| ==> Grows(states, k)
    ensures Attested(states[i], states[j])
    decreases j
  {
    if i < j {
      GrowsAlong(states, i, j - 1);
      assert Grows(states, j);
      AttestedTwice(states[i], states[j - 1], states[j]);
    } else {
      AttestedItself(states[i]);
    }
  }

  lemma SealedNext(run: seq<Ledger>, steps: seq<Step>, j: nat, t: string)
    requires ContinuingRun(run, steps) && 0 < j < |run|
    ensures Attested(Sealed(ViewOf(run[j - 1], t)), Sealed(ViewOf(run[j], t)))
  {
    RunKeepsInv(run, steps, j - 1);
    assert StepOk(run, steps, j - 1) && StepContinues(run, steps, j - 1);
    NextForTenant(run[j - 1], run[j], steps[j - 1], t);
  }

  // ---------------------------------------------------------------- without the hypothesis

  /** What is sealed at 1 behind an archive, without a link, breaks the chain. */
  lemma RestartedIsNoChain(archived: seq<Row>, pending: seq<Row>)
    requires archived != [] && pending != []
    ensures !ChainOk(archived + Extend(0, Empty, pending))
  {
    var restarted := Extend(0, Empty, pending);
    if ChainOk(archived + restarted) {
      SuffixIsChain(archived + restarted, |archived|);
      assert (archived + restarted)[..|archived|] == archived;
      RestartBreaksTheLink(archived, restarted);
    }
  }

  lemma {:induction false} StoredIsRead(keys: seq<Key>, objects: Bucket)
    requires keys != [] && forall k :: k in keys ==> k in objects && objects[k] != []
    ensures ReadAll(keys, objects) != []
  {
    assert keys[|keys| - 1] in keys;
  }

  lemma SealBreaksView(v: View, v': View, t: string, n: nat)
    requires ViewInv(v, t) && Restarts(v) && 0 < n <= |v.pending|
    requires v' == v.(chain := ExtendChain(v.chain, v.pending[..n]), pending := v.pending[n..])
    ensures !ViewInv(v', t)
  {
    StoredIsRead(v.keys, v.objects);
    assert v'.chain == Extend(0, Empty, v.pending[..n]);
    RestartedIsNoChain(Archived(v), v.pending[..n]);
  }

  lemma StoredWithFront(v: View, t: string, cutoff: int)
    requires KeysOk(v, t)
    ensures forall k :: k in v.keys ==> k in WithFront(v, t, cutoff) && WithFront(v, t, cutoff)[k] != []
  {
  }

  lemma PassBreaksView(v: View, t: string, cutoff: int)
    requires ViewInv(v, t) && Restarts(v)
    ensures !ViewInv(AfterPass(v, t, cutoff), t)
  {
    var put := WithFront(v, t, cutoff);
    StoredWithFront(v, t, cutoff);
    StoredIsRead(v.keys, put);
    SealedAfterPass(v, t, cutoff);
    assert Full(v) == Extend(0, Empty, v.pending);
    RestartedIsNoChain(ReadAll(v.keys, put), v.pending);
  }

  /** Sealings and committed passes, exactly: in a state where archives and chains are one chain each,
      they still are after the step if and only if it seals no emptied tenant again. */
  lemma StaysOneChainIff(w: Ledger, w': Ledger, step: Step)
    requires Inv(w) && Next(w, w', step) && (step.DoPass? ==> step.r.Deleted?)
    ensures Inv(w') <==> Continues(w, w', step)
  {
    if Continues(w, w', step) {
      NextKeeps(w, w', step);
    } else if step.DoSeal? {
      var t := step.t;
      assert ViewInv(ViewOf(w, t), t);
      SealBreaksView(ViewOf(w, t), ViewOf(w', t), t, step.n);
    } else {
      var t :| HasStale(w.rows, t, step.cutoff) && Restarts(ViewOf(w, t));
      assert ViewInv(ViewOf(w, t), t) && PassDone(w, w', t, step.cutoff);
      PassBreaksView(ViewOf(w, t), t, step.cutoff);
    }
  }

  lemma OneRow(r: Row, t: string)
    requires r.hash.None? && r.chainSeq.None?
    ensures TableOk([r]) && Chain([r], t) == [] && Pending([r], t) == if r.covered.tenant == t then [r] else []
  {
    EmptyTable(t);
    InsertOne([], r);
    assert [] + [r] == [r];
    if r.covered.tenant == t { PendingIs([r], t, [r]); }
  }

  /** A pass over a table that holds one stale unsealed row. */
  lemma LoneRowPasses(w: Ledger, w': Ledger, r: Row, cutoff: int)
    requires w.rows == [r] && r.hash.None? && r.chainSeq.None? && r.covered.created < cutoff
    requires w'.rows == [] && w'.log == w.log + [Key(r.covered.tenant, 1, 1)]
    requires w'.bucket == w.bucket[Key(r.covered.tenant, 1, 1) := [Seal(r, 1, Empty)]]
    ensures Next(w, w', DoPass(cutoff, Deleted(1)))
  {
    assert (w.log + [Key(r.covered.tenant, 1, 1)])[..|w.log|] == w.log;
    EmptyTable(r.covered.tenant);
    forall t
      ensures if HasStale(w.rows, t, cutoff) then PassDone(w, w', t, cutoff) else Kept(w, w', t)
    {
      LoneRowFor(w, w', r, cutoff, t);
    }
  }

  lemma LoneRowFor(w: Ledger, w': Ledger, r: Row, cutoff: int, t: string)
    requires w.rows == [r] && r.hash.None? && r.chainSeq.None? && r.covered.created < cutoff
    requires w'.rows == [] && w'.log == w.log + [Key(r.covered.tenant, 1, 1)]
    requires w'.bucket == w.bucket[Key(r.covered.tenant, 1, 1) := [Seal(r, 1, Empty)]]
    ensures HasStale(w.rows, t, cutoff) <==> r.covered.tenant == t
    ensures if r.covered.tenant == t then PassDone(w, w', t, cutoff) else Kept(w, w', t)
  {
    var k := Key(r.covered.tenant, 1, 1);
    OneRow(r, t);
    EmptyTable(t);
    LogOneMore(w.log, k, t);
    ObjectsAfterPut(w.bucket, k, [Seal(r, 1, Empty)], t);
    assert w.rows[0] == r;
    if r.covered.tenant == t {
      LoneRow(ViewOf(w, t), r, cutoff);
    } else {
      assert LogOf(w.log, t) + [] == LogOf(w.log, t);
    }
  }

  lemma LoneRow(v: View, r: Row, cutoff: int)
    requires v.chain == [] && v.pending == [r] && r.covered.created < cutoff
    ensures Full(v) == Front(v, cutoff) == [Seal(r, 1, Empty)] && Back(v, cutoff) == []
  {
    assert [r][1..] == [];
    assert Extend(1, Digest(Some(1), Empty, r.covered), []) == [];
    assert Full(v) == [Seal(r, 1, Empty)];
  }

  /** A tenant that archives its last row and is written to again reuses the first key: the
      second archive replaces the first, and the first row is neither stored nor in the table. */
  lemma RestartLosesAnArchive(t: string, a: Row, b: Row, cutoff: int) returns (run: seq<Ledger>, steps: seq<Step>)
    requires a.covered.tenant == t && a.hash.None? && a.chainSeq.None? && a.covered.created < cutoff
    requires b.covered.tenant == t && b.hash.None? && b.chainSeq.None? && b.covered.created < cutoff
    ensures IsRun(run, steps) && |run| == 5
    ensures run[2].rows == [] && run[2].bucket == map[Key(t, 1, 1) := [Seal(a, 1, Empty)]]
    ensures run[4].rows == [] && run[4].bucket == map[Key(t, 1, 1) := [Seal(b, 1, Empty)]]
    ensures run[4].log == [Key(t, 1, 1), Key(t, 1, 1)]
    ensures |steps| == 4 && Continues(run[1], run[2], steps[1]) && !Continues(run[3], run[4], steps[3])
  {
    var k := Key(t, 1, 1);
    var w0, w1, w2 := Ledger([], [], map[]), Ledger([a], [], map[]), Ledger([], [k], map[k := [Seal(a, 1, Empty)]]);
    var w3, w4 := Ledger([b], [k], map[k := [Seal(a, 1, Empty)]]), Ledger([], [k, k], map[k := [Seal(b, 1, Empty)]]);
    run := [w0, w1, w2, w3, w4];
    steps := [DoInsert(a), DoPass(cutoff, Deleted(1)), DoInsert(b), DoPass(cutoff, Deleted(1))];
    InsertAndPass(w0, w1, w2, a, cutoff);
    InsertAndPass(w2, w3, w4, b, cutoff);
    FourSteps(run, steps);
    NoArchivesYet(w1, w2, cutoff);
    EmptiedRestarts(w3, w4, b, cutoff);
  }

  lemma FourSteps(run: seq<Ledger>, steps: seq<Step>)
    requires |run| == 5 && |steps| == 4 && run[0] == Ledger([], [], map[])
    requires Next(run[0], run[1], steps[0]) && Next(run[1], run[2], steps[1])
    requires Next(run[2], run[3], steps[2]) && Next(run[3], run[4], steps[3])
    ensures IsRun(run, steps)
  {
    assert StepOk(run, steps, 0) && StepOk(run, steps, 1) && StepOk(run, steps, 2) && StepOk(run, steps, 3);
  }

  lemma InsertAndPass(w: Ledger, w1: Ledger, w2: Ledger, r: Row, cutoff: int)
    requires w.rows == [] && r.hash.None? && r.chainSeq.None? && r.covered.created < cutoff
    requires w1 == Ledger([r], w.log, w.bucket)
    requires w2.rows == [] && w2.log == w.log + [Key(r.covered.tenant, 1, 1)]
    requires w2.bucket == w.bucket[Key(r.covered.tenant, 1, 1) := [Seal(r, 1, Empty)]]
    ensures Next(w, w1, DoInsert(r)) && Next(w1, w2, DoPass(cutoff, Deleted(1)))
  {
    assert [] + [r] == [r];
    LoneRowPasses(w1, w2, r, cutoff);
  }

  lemma NoArchivesYet(w: Ledger, w': Ledger, cutoff: int)
    requires w.log == []
    ensures Continues(w, w', DoPass(cutoff, Deleted(1)))
  {
    forall t
      ensures !Restarts(ViewOf(w, t))
    {
      assert LogOf([], t) == [];
    }
  }

  lemma EmptiedRestarts(w: Ledger, w': Ledger, r: Row, cutoff: int)
    requires w.rows == [r] && r.hash.None? && r.chainSeq.None? && r.covered.created < cutoff
    requires w.log == [Key(r.covered.tenant, 1, 1)]
    ensures !Continues(w, w', DoPass(cutoff, Deleted(1)))
  {
    var t := r.covered.tenant;
    OneRow(r, t);
    FilterOne(Key(t, 1, 1), ForTenant(t));
    assert w.rows[0] == r && HasStale(w.rows, t, cutoff);
    assert Restarts(ViewOf(w, t));
  }
}
