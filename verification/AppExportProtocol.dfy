/** Every interleaving of duplicate deliveries, enqueue failures, crashes, late completions and
    the sweeper around the conditional updates (core/app/appexport/jobs.py). */
module AppExportProtocol {
  import opened Wrappers
  import opened AppExportJobs

  /** Where one delivery of a job is. */
  datatype Pc = Delivered | Broken | Claimed | Uploaded | Late | Closed | Ended

  datatype Worker = Worker(job: string, pc: Pc)

  /** In-app notifications; `owner` tells whether the sender had claimed the job or reclaimed it. */
  datatype Note = Success(job: string) | Failure(job: string, owner: bool)

  /** A sweep under way: what it read, its threshold, what is left to examine, what it failed. */
  datatype Sweep = Sweep(read: Jobs, threshold: int, todo: set<string>, reclaimed: set<string>)

  datatype World = World(jobs: Jobs, objects: set<string>, workers: map<nat, Worker>, sweep: Option<Sweep>,
                         notes: set<Note>, claims: map<string, nat>, clock: int)

  ghost predicate Init(w: World) {
    w.jobs == map[] && w.objects == {} && w.workers == map[] && w.sweep.None? && w.notes == {} && w.claims == map[]
  }

  function Move(w: World, n: nat, pc: Pc): map<nat, Worker>
    requires n in w.workers
  {
    w.workers[n := w.workers[n].(pc := pc)]
  }

  ghost predicate At(w: World, n: nat, pc: Pc, id: string) {
    n in w.workers && w.workers[n] == Worker(id, pc)
  }

  // ---------------------------------------------------------------- steps

  ghost predicate Create(w: World, w': World, id: string) {
    id !in w.jobs && w' == w.(jobs := w.jobs[id := NewJob(w.clock)])
  }

  ghost predicate EnqueueFails(w: World, w': World, id: string) {
    w' == w.(jobs := FailWhere(w.jobs, id, Pending, w.clock, NOT_ENQUEUED))
  }

  ghost predicate Deliver(w: World, w': World, n: nat, id: string) {
    n !in w.workers && w' == w.(workers := w.workers[n := Worker(id, Delivered)])
  }

  /** The capability is switched off: the job fails without being claimed. */
  ghost predicate Disabled(w: World, w': World, n: nat, id: string, error: string) {
    At(w, n, Delivered, id) &&
    w' == w.(jobs := Fail(w.jobs, id, w.clock, error), workers := Move(w, n, Ended))
  }

  ghost predicate Claim(w: World, w': World, n: nat, id: string) {
    At(w, n, Delivered, id) &&
    if id in w.jobs && w.jobs[id].status == Pending
    then w' == w.(jobs := Start(w.jobs, id, w.clock), workers := Move(w, n, Claimed), claims := w.claims[id := n])
    else w' == w.(workers := Move(w, n, Ended))
  }

  /** An unexpected error before the job is read: it fails, and nobody can be notified. */
  ghost predicate EarlyError(w: World, w': World, n: nat, id: string, error: string) {
    At(w, n, Delivered, id) &&
    w' == w.(jobs := Fail(w.jobs, id, w.clock, error), workers := Move(w, n, Ended))
  }

  /** The claim of a pending job is not committed: it is rolled back, the requester is known. */
  ghost predicate ClaimLost(w: World, w': World, n: nat, id: string) {
    At(w, n, Delivered, id) && id in w.jobs && w.jobs[id].status == Pending && w' == w.(workers := Move(w, n, Broken))
  }

  /** What follows a lost claim. */
  ghost predicate UnclaimedFails(w: World, w': World, n: nat, id: string, error: string) {
    At(w, n, Broken, id) &&
    w' == w.(jobs := Fail(w.jobs, id, w.clock, error), workers := Move(w, n, Ended),
      notes := w.notes + {Failure(id, false)})
  }

  /** The bundle cannot be built, or the upload raises, perhaps after storing the object. */
  ghost predicate WorkFails(w: World, w': World, n: nat, id: string, error: string, stored: bool) {
    At(w, n, Claimed, id) &&
    w' == w.(jobs := Fail(w.jobs, id, w.clock, error), workers := Move(w, n, Ended),
             objects := if stored then w.objects + {ResultKey(id)} else w.objects,
             notes := w.notes + {Failure(id, true)})
  }

  ghost predicate Upload(w: World, w': World, n: nat, id: string) {
    At(w, n, Claimed, id) &&
    w' == w.(objects := w.objects + {ResultKey(id)}, workers := Move(w, n, Uploaded))
  }

  ghost predicate Close(w: World, w': World, n: nat, id: string, warning: Option<string>) {
    At(w, n, Uploaded, id) &&
    w' == w.(jobs := Finish(w.jobs, id, w.clock, warning),
             workers := Move(w, n, if id in w.jobs && !Terminal(w.jobs[id].status) then Closed else Late))
  }

  /** The closing transaction itself fails. */
  ghost predicate CloseFails(w: World, w': World, n: nat, id: string, error: string) {
    At(w, n, Uploaded, id) &&
    w' == w.(jobs := Fail(w.jobs, id, w.clock, error), workers := Move(w, n, Ended),
      notes := w.notes + {Failure(id, true)})
  }

  /** Closed by someone else during the upload: the orphan object is removed, or that fails. */
  ghost predicate DeleteLate(w: World, w': World, n: nat, id: string, works: bool, error: string) {
    At(w, n, Late, id) &&
    if works then w' == w.(objects := w.objects - {ResultKey(id)}, workers := Move(w, n, Ended))
    else w' == w.(jobs := Fail(w.jobs, id, w.clock, error), workers := Move(w, n, Ended),
      notes := w.notes + {Failure(id, true)})
  }

  ghost predicate NotifySuccess(w: World, w': World, n: nat, id: string) {
    At(w, n, Closed, id) && w' == w.(workers := Move(w, n, Ended), notes := w.notes + {Success(id)})
  }

  ghost predicate Crash(w: World, w': World, n: nat) {
    n in w.workers && w' == w.(workers := Move(w, n, Ended))
  }

  ghost predicate SweepStarts(w: World, w': World, age: nat) {
    w.sweep.None? &&
    w' == w.(sweep := Some(Sweep(w.jobs, w.clock - age, set id | id in w.jobs && !Terminal(w.jobs[id].status), {})))
  }

  /** One row of the sweep: the update is conditional on the status that was read. */
  ghost predicate SweepsOne(w: World, w': World, id: string) {
    w.sweep.Some? && id in w.sweep.value.todo && id in w.sweep.value.read &&
    var s := w.sweep.value;
    if Stuck(s.read[id], s.threshold) && id in w.jobs && w.jobs[id].status == s.read[id].status
    then w' == w.(jobs := FailWhere(w.jobs, id, s.read[id].status, w.clock, TIMED_OUT),
                  sweep := Some(s.(todo := s.todo - {id}, reclaimed := s.reclaimed + {id})))
    else w' == w.(sweep := Some(s.(todo := s.todo - {id})))
  }

  ghost predicate SweepEnds(w: World, w': World) {
    w.sweep.Some? && w.sweep.value.todo == {} &&
    w' == w.(sweep := None, notes := w.notes + set id | id in w.sweep.value.reclaimed :: Failure(id, true))
  }

  /** The sweeper dies; those it failed are not told. */
  ghost predicate SweepCrashes(w: World, w': World) {
    w.sweep.Some? && w' == w.(sweep := None)
  }

  ghost predicate Tick(w: World, w': World) {
    w.clock <= w'.clock && w' == w.(clock := w'.clock)
  }

  datatype Step =
    | DoCreate(id: string) | DoEnqueueFails(id: string) | DoDeliver(n: nat, id: string)
    | DoDisabled(n: nat, id: string, error: string) | DoClaim(n: nat, id: string)
    | DoEarlyError(n: nat, id: string, error: string)
    | DoClaimLost(n: nat, id: string) | DoUnclaimedFails(n: nat, id: string, error: string)
    | DoWorkFails(n: nat, id: string, error: string, stored: bool)
    | DoUpload(n: nat, id: string) | DoClose(n: nat, id: string, warning: Option<string>)
    | DoCloseFails(n: nat, id: string, error: string)
    | DoDeleteLate(n: nat, id: string, works: bool, error: string)
    | DoNotifySuccess(n: nat, id: string) | DoCrash(n: nat)
    | DoSweepStarts(age: nat) | DoSweepsOne(id: string) | DoSweepEnds | DoSweepCrashes | DoTick

  ghost predicate Next(w: World, w': World, step: Step) {
    match step
    case DoCreate(id) => Create(w, w', id)
    case DoEnqueueFails(id) => EnqueueFails(w, w', id)
    case DoDeliver(n, id) => Deliver(w, w', n, id)
    case DoDisabled(n, id, error) => Disabled(w, w', n, id, error)
    case DoClaim(n, id) => Claim(w, w', n, id)
    case DoEarlyError(n, id, error) => EarlyError(w, w', n, id, error)
    case DoClaimLost(n, id) => ClaimLost(w, w', n, id)
    case DoUnclaimedFails(n, id, error) => UnclaimedFails(w, w', n, id, error)
    case DoWorkFails(n, id, error, stored) => WorkFails(w, w', n, id, error, stored)
    case DoUpload(n, id) => Upload(w, w', n, id)
    case DoClose(n, id, warning) => Close(w, w', n, id, warning)
    case DoCloseFails(n, id, error) => CloseFails(w, w', n, id, error)
    case DoDeleteLate(n, id, works, error) => DeleteLate(w, w', n, id, works, error)
    case DoNotifySuccess(n, id) => NotifySuccess(w, w', n, id)
    case DoCrash(n) => Crash(w, w', n)
    case DoSweepStarts(age) => SweepStarts(w, w', age)
    case DoSweepsOne(id) => SweepsOne(w, w', id)
    case DoSweepEnds => SweepEnds(w, w')
    case DoSweepCrashes => SweepCrashes(w, w')
    case DoTick => Tick(w, w')
  }

  // ---------------------------------------------------------------- the invariant

  /** Result keys and objects agree with the status. */
  ghost predicate JobOk(w: World, id: string)
    requires id in w.jobs
  {
    var job := w.jobs[id];
    && (job.status == Done ==> job.resultKey == Some(ResultKey(id)) && ResultKey(id) in w.objects)
    && (job.status != Done ==> job.resultKey.None?)
    && (job.status == Running ==> job.startedAt.Some?)
  }

  predicate Owning(pc: Pc) {
    pc == Claimed || pc == Uploaded || pc == Late || pc == Closed
  }

  /** A worker past its claim owns the only claim ever made on its job. */
  ghost predicate WorkerOk(w: World, n: nat)
    requires n in w.workers
  {
    var Worker(id, pc) := w.workers[n];
    && (Owning(pc) ==> id in w.claims && w.claims[id] == n && id in w.jobs)
    && (pc == Claimed || pc == Uploaded ==> id in w.jobs && w.jobs[id].status != Done)
    && (pc == Uploaded ==> ResultKey(id) in w.objects)
    && (pc == Late ==> id in w.jobs && w.jobs[id].status == Error)
    && (pc == Closed ==> id in w.jobs && w.jobs[id].status == Done)
  }

  ghost predicate ClaimOk(w: World, id: string) {
    id in w.claims ==>
      && id in w.jobs && w.jobs[id].status != Pending
      && w.claims[id] in w.workers && w.workers[w.claims[id]].job == id
  }

  ghost predicate NoteOk(w: World, note: Note) {
    match note
    case Success(id) => id in w.jobs && w.jobs[id].status == Done
    case Failure(id, owner) => owner ==> id in w.jobs && w.jobs[id].status == Error
  }

  /** Since the sweep read a row: unchanged, or closed, or started too recently to be stuck. */
  ghost predicate ReadOk(w: World, s: Sweep, id: string)
    requires id in s.read
  {
    && id in w.jobs
    && (|| w.jobs[id] == s.read[id]
        || Terminal(w.jobs[id].status)
        || (w.jobs[id].status == Running && w.jobs[id].startedAt.Some? &&
          w.jobs[id].startedAt.value >= s.threshold && s.read[id].status == Pending))
  }

  predicate Settled(job: Job, threshold: int) {
    Terminal(job.status) || (Anchor(job).Some? && Anchor(job).value >= threshold)
  }

  ghost predicate SweepOk(w: World, s: Sweep) {
    && s.threshold <= w.clock
    && (forall id :: id in s.read ==> ReadOk(w, s, id))
    && (forall id :: id in s.read && id !in s.todo ==> Settled(w.jobs[id], s.threshold))
    && s.todo <= s.read.Keys
    && (forall id :: id in s.reclaimed ==> id in w.jobs && w.jobs[id].status == Error)
    && (forall id :: id in s.read && s.read[id].status == Running ==> s.read[id].startedAt.Some?)
  }

  ghost predicate Inv(w: World) {
    && (forall id :: id in w.jobs ==> JobOk(w, id))
    && (forall n :: n in w.workers ==> WorkerOk(w, n))
    && (forall id :: id in w.claims ==> ClaimOk(w, id))
    && (forall note :: note in w.notes ==> NoteOk(w, note))
    && (w.sweep.Some? ==> SweepOk(w, w.sweep.value))
  }

  // ---------------------------------------------------------------- how jobs may change

  /** All that any step does to one row. */
  ghost predicate Evolves(a: Job, b: Job, clock: int) {
    || b == a
    || (a.status == Pending && b.status == Running && b == a.(status := Running, startedAt := Some(clock)))
    || (!Terminal(a.status) && b.status == Error && b.resultKey == a.resultKey && b.createdAt == a.createdAt)
    || (!Terminal(a.status) && b.status == Done)
  }

  /** Done and error are absorbing, and a row only moves along the protocol. */
  lemma RowsEvolve(w: World, w': World, step: Step, id: string)
    requires Next(w, w', step) && id in w.jobs
    ensures id in w'.jobs && Evolves(w.jobs[id], w'.jobs[id], w.clock)
    ensures Terminal(w.jobs[id].status) ==> w'.jobs[id] == w.jobs[id]
  {
  }

  lemma NewRows(w: World, w': World, step: Step, id: string)
    requires Next(w, w', step) && id !in w.jobs && id in w'.jobs
    ensures w'.jobs[id] == NewJob(w.clock)
  {
  }

  lemma InitInv(w: World)
    requires Init(w)
    ensures Inv(w)
  {
  }

  /** Workers keep what they rely on as long as rows evolve along the protocol, their object is
      not removed by somebody else, and their own state did not change. */
  lemma JobsStayOk(w: World, w': World, step: Step)
    requires Inv(w) && Next(w, w', step)
    ensures forall id :: id in w'.jobs ==> JobOk(w', id)
  {
    forall id | id in w'.jobs
      ensures JobOk(w', id)
    {
      if id in w.jobs {
        assert JobOk(w, id);
        OneJobStaysOk(w, w', step, id);
      } else {
        NewRows(w, w', step, id);
      }
    }
  }

  lemma OneJobStaysOk(w: World, w': World, step: Step, id: string)
    requires Inv(w) && Next(w, w', step) && id in w.jobs && id in w'.jobs && JobOk(w, id)
    ensures JobOk(w', id)
  {
    RowsEvolve(w, w', step, id);
    if w.jobs[id].status == Done {
      ResultStays(w, w', step, id);
    } else if w'.jobs[id].status == Done {
      NewlyDone(w, w', step, id);
    }
  }

  /** Only the worker that uploaded closes a job as done. */
  lemma NewlyDone(w: World, w': World, step: Step, id: string)
    requires Inv(w) && Next(w, w', step) && id in w.jobs && id in w'.jobs
    requires w.jobs[id].status != Done && w'.jobs[id].status == Done
    ensures w'.jobs[id].resultKey == Some(ResultKey(id)) && ResultKey(id) in w'.objects
  {
    match step
    case DoClose(n, other, warning) => assert WorkerOk(w, n);
    case _ =>
  }

  /** The object of a job done is never removed. */
  lemma ResultStays(w: World, w': World, step: Step, id: string)
    requires Inv(w) && Next(w, w', step) && id in w.jobs && w.jobs[id].status == Done && ResultKey(id) in w.objects
    ensures ResultKey(id) in w'.objects
  {
    match step
    case DoDeleteLate(n, other, works, error) =>
      assert WorkerOk(w, n);
      if ResultKey(other) == ResultKey(id) { KeyIdentifiesJob(other, id); }
    case _ =>
  }

  /** The object of a delivery that was overtaken is removed, and the job keeps its failure. */
  lemma LateObjectGoes(w: World, w': World, n: nat, id: string, error: string)
    requires Inv(w) && Next(w, w', DoDeleteLate(n, id, true, error))
    ensures "appexports/" + id + ".zip" !in w'.objects
    ensures id in w'.jobs && w'.jobs[id].status == Error && w'.jobs[id] == w.jobs[id]
  {
    assert WorkerOk(w, n);
  }

  /** Result keys of different jobs differ. */
  lemma KeyIdentifiesJob(a: string, b: string)
    requires ResultKey(a) == ResultKey(b)
    ensures a == b
  {
    var n := |"appexports/"|;
    assert |a| == |b|;
    forall i | 0 <= i < |a|
      ensures a[i] == b[i]
    {
      assert ResultKey(a)[n + i] == a[i] && ResultKey(b)[n + i] == b[i];
    }
  }

  lemma ClaimsStayOk(w: World, w': World, step: Step)
    requires Inv(w) && Next(w, w', step)
    ensures forall id :: id in w'.claims ==> ClaimOk(w', id)
  {
    forall id | id in w'.claims
      ensures ClaimOk(w', id)
    {
      if id in w.claims {
        assert ClaimOk(w, id);
        RowsEvolve(w, w', step, id);
      }
    }
  }

  lemma NotesStayOk(w: World, w': World, step: Step)
    requires Inv(w) && Next(w, w', step)
    ensures forall note :: note in w'.notes ==> NoteOk(w', note)
  {
    forall note | note in w'.notes
      ensures NoteOk(w', note)
    {
      if note in w.notes {
        assert NoteOk(w, note);
        if note.job in w.jobs { RowsEvolve(w, w', step, note.job); }
      } else {
        NewNoteOk(w, w', step, note);
      }
    }
  }

  lemma NewNoteOk(w: World, w': World, step: Step, note: Note)
    requires Inv(w) && Next(w, w', step) && note in w'.notes && note !in w.notes
    ensures NoteOk(w', note)
  {
    match step
    case DoWorkFails(n, id, error, stored) => assert WorkerOk(w, n);
    case DoCloseFails(n, id, error) => assert WorkerOk(w, n);
    case DoDeleteLate(n, id, works, error) => assert WorkerOk(w, n);
    case DoNotifySuccess(n, id) => assert WorkerOk(w, n);
    case DoSweepEnds => assert SweepOk(w, w.sweep.value);
    case _ =>
  }

  lemma WorkersStayOk(w: World, w': World, step: Step)
    requires Inv(w) && Next(w, w', step)
    ensures forall n :: n in w'.workers ==> WorkerOk(w', n)
  {
    forall n | n in w'.workers
      ensures WorkerOk(w', n)
    {
      if n in w.workers {
        assert WorkerOk(w, n);
        OneWorkerStaysOk(w, w', step, n);
      }
    }
  }

  /** A worker's own move. */
  lemma MovedWorkerOk(w: World, w': World, step: Step, n: nat)
    requires Inv(w) && Next(w, w', step) && n in w.workers && n in w'.workers && WorkerOk(w, n)
    requires w'.workers[n] != w.workers[n]
    ensures WorkerOk(w', n)
  {
    var id := w.workers[n].job;
    if id in w.claims { assert ClaimOk(w, id); }
  }

  /** The claimant of a job is unique, so nobody else closes it while it works. */
  lemma NotClosedByOthers(w: World, w': World, step: Step, n: nat)
    requires Inv(w) && Next(w, w', step) && n in w.workers && w'.workers[n] == w.workers[n] && WorkerOk(w, n)
    requires w.workers[n].pc == Claimed || w.workers[n].pc == Uploaded
    ensures w.workers[n].job in w'.jobs && w'.jobs[w.workers[n].job].status != Done
  {
    RowsEvolve(w, w', step, w.workers[n].job);
    match step
    case DoClose(m, other, warning) => assert WorkerOk(w, m);
    case _ =>
  }

  /** Nor does anybody else remove its object, or take its claim. */
  lemma NotRobbed(w: World, w': World, step: Step, n: nat)
    requires Inv(w) && Next(w, w', step) && n in w.workers && w'.workers[n] == w.workers[n] && WorkerOk(w, n)
    requires Owning(w.workers[n].pc)
    ensures w.workers[n].job in w'.claims && w'.claims[w.workers[n].job] == n
    ensures w.workers[n].pc == Uploaded ==> ResultKey(w.workers[n].job) in w'.objects
  {
    var id := w.workers[n].job;
    assert ClaimOk(w, id);
    match step
    case DoDeleteLate(m, other, works, error) =>
      assert WorkerOk(w, m);
      if ResultKey(other) == ResultKey(id) { KeyIdentifiesJob(other, id); }
    case _ =>
  }

  lemma OneWorkerStaysOk(w: World, w': World, step: Step, n: nat)
    requires Inv(w) && Next(w, w', step) && n in w.workers && n in w'.workers && WorkerOk(w, n)
    ensures WorkerOk(w', n)
  {
    if w'.workers[n] != w.workers[n] {
      MovedWorkerOk(w, w', step, n);
    } else if Owning(w.workers[n].pc) {
      RowsEvolve(w, w', step, w.workers[n].job);
      NotRobbed(w, w', step, n);
      if w.workers[n].pc == Claimed || w.workers[n].pc == Uploaded {
        NotClosedByOthers(w, w', step, n);
      }
    }
  }

  lemma SweepStaysOk(w: World, w': World, step: Step)
    requires Inv(w) && Next(w, w', step) && w'.sweep.Some?
    ensures SweepOk(w', w'.sweep.value)
  {
    var s' := w'.sweep.value;
    if w.sweep.Some? {
      var s := w.sweep.value;
      assert SweepOk(w, s);
      forall id | id in s.read
        ensures ReadOk(w', s', id)
        ensures id !in s'.todo ==> Settled(w'.jobs[id], s.threshold)
      {
        assert ReadOk(w, s, id);
        RowsEvolve(w, w', step, id);
        OneReadStaysOk(w, w', step, s, id);
      }
      forall id | id in s'.reclaimed
        ensures id in w'.jobs && w'.jobs[id].status == Error
      {
        if id in s.reclaimed { RowsEvolve(w, w', step, id); }
      }
    } else {
      assert forall id :: id in w.jobs ==> JobOk(w, id);
    }
  }

  lemma OneReadStaysOk(w: World, w': World, step: Step, s: Sweep, id: string)
    requires Inv(w) && Next(w, w', step) && w.sweep == Some(s) && w'.sweep.Some? && SweepOk(w, s)
    requires id in s.read && ReadOk(w, s, id) && id in w'.jobs && Evolves(w.jobs[id], w'.jobs[id], w.clock)
    ensures ReadOk(w', w'.sweep.value, id)
    ensures id !in w'.sweep.value.todo ==> Settled(w'.jobs[id], s.threshold)
  {
    if id !in s.todo {
      assert Settled(w.jobs[id], s.threshold);
    }
  }

  lemma NextKeeps(w: World, w': World, step: Step)
    requires Inv(w) && Next(w, w', step)
    ensures Inv(w')
  {
    JobsStayOk(w, w', step);
    WorkersStayOk(w, w', step);
    ClaimsStayOk(w, w', step);
    NotesStayOk(w, w', step);
    if w'.sweep.Some? {
      SweepStaysOk(w, w', step);
    }
  }

  // ---------------------------------------------------------------- main results

  ghost predicate IsRun(run: seq<World>, steps: seq<Step>) {
    && run != [] && |steps| == |run| - 1 && Init(run[0])
    && forall i {:trigger steps[i]} :: 0 <= i < |steps| ==> Next(run[i], run[i + 1], steps[i])
  }

  lemma {:induction false} RunKeepsInv(run: seq<World>, steps: seq<Step>, i: nat)
    requires IsRun(run, steps) && i < |run|
    ensures Inv(run[i])
  {
    if i == 0 {
      InitInv(run[0]);
    } else {
      RunKeepsInv(run, steps, i - 1);
      NextKeeps(run[i - 1], run[i], steps[i - 1]);
    }
  }

  /** A closed job never changes again. */
  lemma {:induction false} ClosedForEver(run: seq<World>, steps: seq<Step>, i: nat, j: nat, id: string)
    requires IsRun(run, steps) && i <= j < |run|
    requires id in run[i].jobs && Terminal(run[i].jobs[id].status)
    ensures id in run[j].jobs && run[j].jobs[id] == run[i].jobs[id]
    decreases j
  {
    if i < j {
      ClosedForEver(run, steps, i, j - 1, id);
      RowsEvolve(run[j - 1], run[j], steps[j - 1], id);
    }
  }

  /** A job done can be downloaded, an error carries no result, and whoever was told of success
      was told the truth; a failure announced by the claimant or the sweeper is an error. */
  lemma StatusTellsTheTruth(run: seq<World>, steps: seq<Step>, i: nat, id: string)
    requires IsRun(run, steps) && i < |run| && id in run[i].jobs
    ensures run[i].jobs[id].status == Done ==>
      run[i].jobs[id].resultKey == Some(ResultKey(id)) && ResultKey(id) in run[i].objects
    ensures run[i].jobs[id].status == Error ==> run[i].jobs[id].resultKey.None?
    ensures Success(id) in run[i].notes ==> run[i].jobs[id].status == Done
    ensures Failure(id, true) in run[i].notes ==> run[i].jobs[id].status == Error
    ensures !(Success(id) in run[i].notes && Failure(id, true) in run[i].notes)
  {
    RunKeepsInv(run, steps, i);
    assert JobOk(run[i], id);
    assert Success(id) in run[i].notes ==> NoteOk(run[i], Success(id));
    assert Failure(id, true) in run[i].notes ==> NoteOk(run[i], Failure(id, true));
  }

  /** At most one delivery of a job ever passes from pending to running. */
  lemma {:induction false} ClaimedOnce(run: seq<World>, steps: seq<Step>, i: nat, j: nat, id: string)
    requires IsRun(run, steps) && i < j < |steps|
    requires steps[i].DoClaim? && steps[i].id == id && id in run[i].jobs && run[i].jobs[id].status == Pending
    requires steps[j].DoClaim? && steps[j].id == id
    ensures run[j + 1].jobs == run[j].jobs && run[j + 1].claims == run[j].claims
  {
    StaysClaimed(run, steps, i + 1, j, id);
    RunKeepsInv(run, steps, j);
    assert ClaimOk(run[j], id);
  }

  lemma {:induction false} StaysClaimed(run: seq<World>, steps: seq<Step>, i: nat, j: nat, id: string)
    requires IsRun(run, steps) && i <= j < |run| && id in run[i].claims
    ensures id in run[j].claims
    decreases j
  {
    if i < j {
      StaysClaimed(run, steps, i, j - 1, id);
      assert Next(run[j - 1], run[j], steps[j - 1]);
    }
  }

  /** When a sweep ends, every job it read is closed or was anchored no earlier than the
      threshold, whatever the workers did meanwhile; and only jobs in error were reclaimed. */
  lemma SweepLeavesNothingStuck(run: seq<World>, steps: seq<Step>, i: nat, id: string)
    requires IsRun(run, steps) && i < |steps| && steps[i].DoSweepEnds? && run[i].sweep.Some?
    requires id in run[i].sweep.value.read
    ensures id in run[i + 1].jobs
    ensures Settled(run[i + 1].jobs[id], run[i].sweep.value.threshold)
    ensures !Stuck(run[i + 1].jobs[id], run[i].sweep.value.threshold)
    ensures id in run[i].sweep.value.reclaimed ==> run[i + 1].jobs[id].status == Error
  {
    RunKeepsInv(run, steps, i);
    assert ReadOk(run[i], run[i].sweep.value, id);
  }

  /** A failure announced without a claim is true exactly when the job was not done by then. */
  lemma UnclaimedFailureIsTrueIff(w: World, w': World, n: nat, id: string, error: string)
    requires Next(w, w', DoUnclaimedFails(n, id, error)) && id in w.jobs
    ensures Failure(id, false) in w'.notes
    ensures w'.jobs[id].status == Error <==> w.jobs[id].status != Done
  {
  }

  /** It can be false: between the lost claim and the report of its failure, a duplicate delivery
      may do the whole job. */
  lemma UnclaimedFailureMayMislead(w0: World, m: nat, n: nat, id: string) returns (run: seq<World>, steps: seq<Step>)
    requires Init(w0) && m != n
    ensures IsRun(run, steps) && |run| == 9 && run[0] == w0
    ensures id in run[8].jobs && run[8].jobs[id].status == Done && Failure(id, false) in run[8].notes
  {
    var jobs := w0.jobs[id := NewJob(w0.clock)];
    var w1 := w0.(jobs := jobs);
    var w2 := w1.(workers := w1.workers[m := Worker(id, Delivered)]);
    var w3 := w2.(workers := w2.workers[n := Worker(id, Delivered)]);
    run, steps := [w0], [];
    run, steps := OneMore(run, steps, w1, DoCreate(id));
    run, steps := OneMore(run, steps, w2, DoDeliver(m, id));
    run, steps := OneMore(run, steps, w3, DoDeliver(n, id));
    run, steps := LostClaimThenDone(run, steps, m, n, id);
  }

  lemma LostClaimThenDone(run: seq<World>, steps: seq<Step>, m: nat, n: nat, id: string)
    returns (run': seq<World>, steps': seq<Step>)
    requires IsRun(run, steps) && m != n
    requires At(run[|run| - 1], m, Delivered, id) && At(run[|run| - 1], n, Delivered, id)
    requires id in run[|run| - 1].jobs && run[|run| - 1].jobs[id].status == Pending
    ensures IsRun(run', steps') && |run'| == |run| + 5 && run'[0] == run[0]
    ensures
      var last := run'[|run'| - 1];
      id in last.jobs && last.jobs[id].status == Done && Failure(id, false) in last.notes
  {
    var w := run[|run| - 1];
    var w1 := w.(workers := Move(w, m, Broken));
    var w2 := w1.(jobs := Start(w.jobs, id, w.clock), workers := Move(w1, n, Claimed), claims := w.claims[id := n]);
    var w3 := w2.(objects := w.objects + {ResultKey(id)}, workers := Move(w2, n, Uploaded));
    var w4 := w3.(jobs := Finish(w3.jobs, id, w.clock, None), workers := Move(w3, n, Closed));
    var w5 := w4.(jobs := Fail(w4.jobs, id, w.clock, "x"), workers := Move(w4, m, Ended),
      notes := w.notes + {Failure(id, false)});
    run', steps' := OneMore(run, steps, w1, DoClaimLost(m, id));
    run', steps' := OneMore(run', steps', w2, DoClaim(n, id));
    run', steps' := OneMore(run', steps', w3, DoUpload(n, id));
    run', steps' := OneMore(run', steps', w4, DoClose(n, id, None));
    run', steps' := OneMore(run', steps', w5, DoUnclaimedFails(m, id, "x"));
  }

  /** A run with one more step. */
  lemma OneMore(run: seq<World>, steps: seq<Step>, w: World, step: Step) returns (run': seq<World>, steps': seq<Step>)
    requires IsRun(run, steps) && Next(run[|run| - 1], w, step)
    ensures IsRun(run', steps') && |run'| == |run| + 1 && run'[0] == run[0] && run'[|run'| - 1] == w
  {
    run', steps' := run + [w], steps + [step];
    forall i | 0 <= i < |steps'|
      ensures Next(run'[i], run'[i + 1], steps'[i])
    {
      if i < |steps| {
        assert run'[i] == run[i] && run'[i + 1] == run[i + 1] && steps'[i] == steps[i];
      }
    }
  }
}
