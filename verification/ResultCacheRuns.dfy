/** The lake and the result cache together: requests between the steps of the lake. */
module ResultCacheRuns {
  import opened Wrappers
  import opened LakeRows
  import opened LakeSnapshots
  import opened LakeRuns
  import opened ResultCache

  /** `past` lists the raw files at each moment so far. */
  datatype System = System(lake: Lake, past: Past, entries: seq<Entry>)

  /** A step of the lake, or a request that reads through this snapshot, or none, and its response. */
  datatype Step = DoLake | DoRequest(q: Query, choice: Option<Key>, r: Response)

  ghost predicate Next(engine: Engine, s: System, s': System, step: Step) {
    match step
    case DoLake =>
      LakeRuns.Next(s.lake, s'.lake) && s'.past == s.past + [s'.lake.files] && s'.entries == s.entries
    case DoRequest(q, choice, r) =>
      && s'.lake == s.lake && s'.past == s.past
      && Responds(engine, s.lake.files, s.lake.objects, choice, s.entries, q, r, s'.entries)
  }

  ghost predicate StepOk(engine: Engine, run: seq<System>, steps: seq<Step>, i: nat)
    requires i < |steps| == |run| - 1
  {
    Next(engine, run[i], run[i + 1], steps[i]) && Readable(run[i].lake, steps[i])
  }

  /** Versions identify rows, and a request in a half emptied lake reads the files. */
  ghost predicate Readable(s: Lake, step: Step) {
    step.DoRequest? ==> VersionsIdentify(Raw(s.files)) && (HalfPurged(s) ==> step.choice.None?)
  }

  /** Any number of lake steps, purges included, and requests in any order, files being immutable. */
  ghost predicate IsRun(engine: Engine, run: seq<System>, steps: seq<Step>) {
    && run != [] && |steps| == |run| - 1
    && LakeRuns.Init(run[0].lake) && run[0].past == [run[0].lake.files] && run[0].entries == []
    && (forall i :: 0 <= i < |steps| ==> StepOk(engine, run, steps, i))
    && (forall i :: 0 <= i < |run| ==> Immutable(run[i].past))
  }

  ghost predicate Inv(engine: Engine, s: System) {
    && LakeRuns.Inv(s.lake)
    && s.past != [] && s.past[|s.past| - 1] == s.lake.files
    && |s.entries| <= CACHE_MAX_ENTRIES && AllOk(engine, s.past, s.entries) && AllSettled(engine, s.past, s.entries)
  }

  lemma LakeStepKeeps(engine: Engine, s: System, s': System)
    requires Inv(engine, s) && Next(engine, s, s', DoLake)
    ensures Inv(engine, s')
  {
    LakeRuns.NextKeeps(s.lake, s'.lake);
    forall i | 0 <= i < |s.entries|
      ensures EntryOk(engine, s'.past, s.entries[i]) && Settled(engine, s'.past, s.entries[i])
    {
      PastGrows(engine, s.past, s'.lake.files, s.entries[i]);
      SettledGrows(engine, s.past, s'.lake.files, s.entries[i]);
    }
  }

  /** What is computed now is the answer now. */
  lemma ComputedIsRight(engine: Engine, s: Lake, choice: Option<Key>, q: Query, outcome: Outcome)
    requires LakeRuns.Inv(s) && VersionsIdentify(Raw(s.files)) && (HalfPurged(s) ==> choice.None?)
    requires ComputedFrom(engine, s.files, s.objects, choice, q, outcome)
    ensures IsAnswer(engine, Raw(s.files), q, outcome)
  {
    var view :| LakeSnapshots.Served(s.files, s.objects, choice, view) && outcome == engine(multiset(Live(view)), q);
    InvServesNewest(s, choice, view);
    OneAnswer(engine, Raw(s.files), q, view);
  }

  /** The response is that of a fresh computation on the raw rows of this very moment. */
  ghost predicate Right(engine: Engine, s: Lake, q: Query, r: Response) {
    match r
    case Busy => true
    case Rejected(reason) => IsAnswer(engine, Raw(s.files), q, Failed(reason))
    case Served(a) => IsAnswer(engine, Raw(s.files), q, Computed(a))
  }

  lemma HitIsRight(engine: Engine, s: System, s': System, q: Query, a: Answer)
    requires Inv(engine, s) && Immutable(s.past) && s'.lake == s.lake && s'.past == s.past
    requires LookedUp(s.entries, CacheKey(s.lake.files.Keys, q), Some(a), s'.entries)
    ensures Inv(engine, s') && IsAnswer(engine, Raw(s.lake.files), q, Computed(a))
  {
    var key := CacheKey(s.lake.files.Keys, q);
    var i :| 0 <= i < |s.entries| && s.entries[i] == Entry(key, a) && s'.entries == MoveToEnd(s.entries, i);
    SettledIsRight(engine, s.past, s.entries[i], |s.past| - 1);
    MovedOk(engine, s.past, s.entries, i);
  }

  lemma AnswerIsKept(engine: Engine, s: System, s': System, q: Query, a: Answer)
    requires Inv(engine, s) && s'.lake == s.lake && s'.past == s.past
    requires IsAnswer(engine, Raw(s.lake.files), q, Computed(a))
    requires Updated(s.entries, Entry(CacheKey(s.lake.files.Keys, q), a), s'.entries)
    requires !HasEntry(s.entries, CacheKey(s.lake.files.Keys, q))
    ensures Inv(engine, s')
  {
    if |a.rows| <= CACHE_MAX_ROWS {
      var e, now := Entry(CacheKey(s.lake.files.Keys, q), a), |s.past| - 1;
      assert s.past[now].Keys == e.key.files && AnswersSince(engine, s.past, now, q, Computed(a));
      assert EntryOk(engine, s.past, e) && Settled(engine, s.past, e);
      KeptOk(engine, s.past, s.entries, e, s'.entries);
    }
  }

  lemma RequestKeeps(engine: Engine, s: System, s': System, step: Step)
    requires Inv(engine, s) && Immutable(s.past) && step.DoRequest?
    requires Next(engine, s, s', step) && Readable(s.lake, step)
    ensures Inv(engine, s') && Right(engine, s.lake, step.q, step.r)
  {
    var q, r := step.q, step.r;
    if HasEntry(s.entries, CacheKey(s.lake.files.Keys, q)) {
      HitIsRight(engine, s, s', q, r.answer);
    } else {
      match r
      case Busy =>
      case Rejected(reason) =>
        ComputedIsRight(engine, s.lake, step.choice, q, Failed(reason));
      case Served(a) =>
        ComputedIsRight(engine, s.lake, step.choice, q, Computed(a));
        AnswerIsKept(engine, s, s', q, a);
    }
  }

  lemma {:induction false} RunKeepsInv(engine: Engine, run: seq<System>, steps: seq<Step>, i: nat)
    requires IsRun(engine, run, steps) && i < |run|
    ensures Inv(engine, run[i])
  {
    if i == 0 {
      RawEmpty();
    } else {
      RunKeepsInv(engine, run, steps, i - 1);
      assert StepOk(engine, run, steps, i - 1);
      if steps[i - 1].DoLake? {
        LakeStepKeeps(engine, run[i - 1], run[i]);
      } else {
        RequestKeeps(engine, run[i - 1], run[i], steps[i - 1]);
      }
    }
  }

  /** Transparency over whole runs: between appends, compactions, snapshot cycles, purges and damage,
      every request is answered as by a fresh computation at that moment, from the cache or not. */
  lemma CacheIsTransparent(engine: Engine, run: seq<System>, steps: seq<Step>, i: nat)
    requires IsRun(engine, run, steps) && i < |steps| && steps[i].DoRequest?
    ensures Right(engine, run[i].lake, steps[i].q, steps[i].r)
    ensures |run[i].entries| <= 128
    ensures forall e :: e in run[i].entries ==> |e.answer.rows| <= 2000
  {
    RunKeepsInv(engine, run, steps, i);
    assert StepOk(engine, run, steps, i);
    RequestKeeps(engine, run[i], run[i + 1], steps[i]);
    forall e | e in run[i].entries
      ensures |e.answer.rows| <= 2000
    {
      var j :| 0 <= j < |run[i].entries| && run[i].entries[j] == e;
      assert EntryOk(engine, run[i].past, run[i].entries[j]);
    }
  }
}
