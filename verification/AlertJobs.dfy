/** Creating, sweeping and evaluating alert evaluations (core/app/alerts/jobs.py,
    repository.py, service.py). */
module AlertJobs {
  import opened Wrappers
  import opened Seqs
  import opened AlertEpisodes

  const HISTORY_LIMIT: nat := 100

  /** `_PENDING_RECLAIM_MINUTES`, in microseconds. */
  const RECLAIM_DELAY: int := 3_600_000_000

  /** An alert rule as the sweep sees it: `nextTick` is its cron schedule. */
  datatype Rule = Rule(id: string, enabled: bool, nextTick: int -> int)

  /** The measured condition, or an evaluation error. */
  datatype Measure = Holds(condition: bool) | Fails

  /** How a notification round goes: one outcome per channel, or a breakdown after some sends. */
  datatype Sends = Round(works: seq<bool>) | Breaks(sent: seq<string>)

  // ---------------------------------------------------------------- looking back

  function Terminal(): Evaluation -> bool {
    (e: Evaluation) => e.state != Pending
  }

  function OtherTerminal(id: int): Evaluation -> bool {
    (e: Evaluation) => e.id != id && e.state != Pending
  }

  /** Terminal evaluations, oldest first. */
  function Terminals(s: seq<Evaluation>): seq<Evaluation> {
    Filter(s, Terminal())
  }

  /** The most recent rows, as far back as `list_evaluations` looks. */
  function Window(s: seq<Evaluation>): seq<Evaluation> {
    if |s| <= HISTORY_LIMIT then s else s[|s| - HISTORY_LIMIT..]
  }

  /** What the evaluation `id` sees of the past, oldest first. */
  function Seen(s: seq<Evaluation>, id: int): seq<Evaluation> {
    Filter(Window(s), OtherTerminal(id))
  }

  function NewState(condition: bool): State {
    if condition then Firing else Ok
  }

  /** The evaluation of a row, whatever it held before: the measured state, the transition, and a
      notification when the past calls for one. */
  function Evaluated(row: Evaluation, seen: seq<Evaluation>, measure: Measure, keys: seq<string>,
                     sends: Sends): Evaluation
    requires sends.Round? ==> |sends.works| == |keys|
  {
    match measure
    case Fails => row.(state := Error, transitioned := false)
    case Holds(condition) =>
      var state := NewState(condition);
      var reported := row.(state := state, transitioned := Transitions(seen, state));
      if Notifies(seen, state) then Notified(reported, keys, SkipSet(seen, state), sends) else reported
  }

  lemma EvaluatedFacts(row: Evaluation, seen: seq<Evaluation>, measure: Measure, keys: seq<string>, sends: Sends)
    requires sends.Round? ==> |sends.works| == |keys|
    ensures Evaluated(row, seen, measure, keys, sends).id == row.id
    ensures Evaluated(row, seen, measure, keys, sends).createdAt == row.createdAt
    ensures Evaluated(row, seen, measure, keys, sends).state != Pending
  {
  }

  predicate Notifies(seen: seq<Evaluation>, state: State) {
    Transitions(seen, state) || RetryDue(seen, state)
  }

  /** The row with its notification recorded. */
  function Notified(row: Evaluation, keys: seq<string>, skip: set<string>, sends: Sends): Evaluation
    requires sends.Round? ==> |sends.works| == |keys|
  {
    match sends
    case Round(works) =>
      row.(status := Some(if RoundFails(keys, skip, works) then Failed else Delivered),
           channels := Some(RoundStatus(keys, skip, works)), sent := row.sent + RoundSent(keys, skip, works))
    case Breaks(sent) => row.(status := Some(Failed), channels := None, sent := row.sent + sent)
  }

  /** A new row is evaluated to a legal successor of the past it sees. */
  lemma EvaluatedIsLegal(row: Evaluation, seen: seq<Evaluation>, measure: Measure, keys: seq<string>, sends: Sends)
    requires Untouched(row) && (sends.Round? ==> |sends.works| == |keys|)
    ensures Legal(seen, Evaluated(row, seen, measure, keys, sends), keys)
  {
    if measure.Holds? && sends.Round? {
      var state := NewState(measure.condition);
      var sent := RoundSent(keys, SkipSet(seen, state), sends.works);
      assert row.sent + sent == sent;
      if Notifies(seen, state) {
        assert RoundOf(Evaluated(row, seen, measure, keys, sends), keys, SkipSet(seen, state), sends.works);
      }
    }
  }

  /** A send to this channel works in a round. */
  predicate Works(keys: seq<string>, works: seq<bool>, k: string)
    requires |works| == |keys|
  {
    exists i :: 0 <= i < |keys| && keys[i] == k && works[i]
  }

  /** The evaluation sends to this channel: the past calls for it, it is not skipped, and it works. */
  predicate SendsTo(seen: seq<Evaluation>, state: State, keys: seq<string>, works: seq<bool>, k: string)
    requires |works| == |keys|
  {
    Notifies(seen, state) && k !in SkipSet(seen, state) && Works(keys, works, k)
  }

  /** A row evaluated twice over distinct channels: a channel is sent to twice if and only if each of
      the two evaluations sends to it. Nothing that the first one recorded holds the second back. */
  lemma EvaluatedTwiceIff(row: Evaluation, seen: seq<Evaluation>, first: bool, second: bool, keys: seq<string>,
                          works1: seq<bool>, works2: seq<bool>, k: string)
    requires Untouched(row) && NoDup(keys) && |works1| == |works2| == |keys|
    ensures
      var once := Evaluated(row, seen, Holds(first), keys, Round(works1));
      var twice := Evaluated(once, seen, Holds(second), keys, Round(works2));
      multiset(twice.sent)[k] == 2 <==>
        SendsTo(seen, NewState(first), keys, works1, k) && SendsTo(seen, NewState(second), keys, works2, k)
  {
    var once := Evaluated(row, seen, Holds(first), keys, Round(works1));
    SentByOne(row, seen, first, keys, works1, k);
    SentByOne(once, seen, second, keys, works2, k);
  }

  lemma SentByOne(row: Evaluation, seen: seq<Evaluation>, condition: bool, keys: seq<string>,
                  works: seq<bool>, k: string)
    requires NoDup(keys) && |works| == |keys|
    ensures multiset(Evaluated(row, seen, Holds(condition), keys, Round(works)).sent)[k] ==
      multiset(row.sent)[k] + if SendsTo(seen, NewState(condition), keys, works, k) then 1 else 0
  {
    var skip := SkipSet(seen, NewState(condition));
    SentInRound(keys, skip, works, k);
    var sent := RoundSent(keys, skip, works);
    assert multiset(row.sent + sent) == multiset(row.sent) + multiset(sent);
  }

  lemma {:induction false} SentInRound(keys: seq<string>, skip: set<string>, works: seq<bool>, k: string)
    requires NoDup(keys) && |works| == |keys|
    ensures multiset(RoundSent(keys, skip, works))[k] == if k !in skip && Works(keys, works, k) then 1 else 0
  {
    if keys != [] {
      var n := |keys| - 1;
      SentInRound(keys[..n], skip, works[..n], k);
      WorksInit(keys, works, k);
    }
  }

  lemma WorksInit(keys: seq<string>, works: seq<bool>, k: string)
    requires NoDup(keys) && keys != [] && |works| == |keys|
    ensures
      var n := |keys| - 1;
      Works(keys, works, k) <==> if keys[n] == k then works[n] else Works(keys[..n], works[..n], k)
    ensures keys[|keys| - 1] == k ==> !Works(keys[..|keys| - 1], works[..|keys| - 1], k)
  {
    var n := |keys| - 1;
    if Works(keys[..n], works[..n], k) {
      var i :| 0 <= i < n && keys[..n][i] == k && works[..n][i];
      assert keys[i] == k && works[i] && keys[i] != keys[n];
    }
    if Works(keys, works, k) {
      var i :| 0 <= i < |keys| && keys[i] == k && works[i];
      assert i < n ==> keys[..n][i] == k && works[..n][i];
    }
  }

  method PreviousTerminal(history: seq<Evaluation>, id: int, ghost seen: seq<Evaluation>)
    returns (r: Option<Evaluation>)
    requires Filter(history, OtherTerminal(id)) == Reverse(seen)
    ensures r == if seen == [] then None else Some(seen[|seen| - 1])
  {
    for i := 0 to |history|
      invariant forall j :: 0 <= j < i ==> !OtherTerminal(id)(history[j])
    {
      if history[i].id == id {
        continue;
      }
      if history[i].state == Pending {
        continue;
      }
      FirstMatch(history, OtherTerminal(id), i);
      return Some(history[i]);
    }
    FilterNone(history, OtherTerminal(id));
    assert |seen| == |Reverse(seen)| == 0;
    return None;
  }

  method ShouldRetry(history: seq<Evaluation>, id: int, newState: State, ghost seen: seq<Evaluation>)
    returns (r: bool)
    requires Filter(history, OtherTerminal(id)) == Reverse(seen)
    ensures r == RetryDue(seen, newState)
  {
    var terminal := Filter(history, OtherTerminal(id));
    if terminal == [] || terminal[0].state != newState {
      return false;
    }
    var consecutive := 0;
    assert seen[..|seen|] == seen;
    for i := 0 to |terminal|
      invariant consecutive == i
      invariant Failures(seen) == i + Failures(seen[..|seen| - i])
    {
      assert terminal[i] == seen[..|seen| - i][|seen| - i - 1];
      assert seen[..|seen| - i][..|seen| - i - 1] == seen[..|seen| - i - 1];
      if terminal[i].status != Some(Failed) {
        break;
      }
      consecutive := consecutive + 1;
    }
    r := 0 < consecutive <= MAX_NOTIFY_RETRIES;
  }

  /** Sends to every channel not in `skip`. */
  method Notify(keys: seq<string>, skip: set<string>, works: seq<bool>)
    returns (failed: bool, channels: map<string, Status>, sent: seq<string>)
    requires |works| == |keys|
    ensures failed == RoundFails(keys, skip, works)
    ensures channels == RoundStatus(keys, skip, works)
    ensures sent == RoundSent(keys, skip, works)
  {
    var failures: nat := 0;
    channels, sent := map[], [];
    for i := 0 to |keys|
      invariant failures > 0 <==> exists j :: 0 <= j < i && keys[j] !in skip && !works[j]
      invariant channels == RoundStatus(keys[..i], skip, works[..i])
      invariant sent == RoundSent(keys[..i], skip, works[..i])
    {
      assert keys[..i + 1][..i] == keys[..i] && works[..i + 1][..i] == works[..i];
      var key := keys[i];
      if key in skip {
        channels := channels[key := Delivered];
        continue;
      }
      if works[i] {
        sent := sent + [key];
      } else {
        failures := failures + 1;
      }
      channels := channels[key := if works[i] then Delivered else Failed];
    }
    assert keys[..|keys|] == keys && works[..|works|] == works;
    failed := failures > 0;
  }

  // ---------------------------------------------------------------- the store

  /** Same rule, only the row `c` replaced by a legal completion for what it could see. */
  ghost predicate Completes(s: seq<Evaluation>, s': seq<Evaluation>, c: nat, keys: seq<string>) {
    && c < |s| && |s'| == |s| && s' == s[c := s'[c]]
    && s'[c].id == s[c].id && s'[c].createdAt == s[c].createdAt
    && Legal(Seen(s, s[c].id), s'[c], keys)
  }

  predicate Untouched(e: Evaluation) {
    e.state == Pending && !e.transitioned && e.status.None? && e.channels.None? && e.sent == []
  }

  /** Creation times follow the list, and a row is only superseded while pending once it is as
      old as the reclaim delay. */
  ghost predicate Spaced(s: seq<Evaluation>) {
    && (forall i, j :: 0 <= i < j < |s| ==> s[i].createdAt <= s[j].createdAt)
    && (forall i :: 0 <= i < |s| - 1 && s[i].state == Pending ==> s[i + 1].createdAt - s[i].createdAt >= RECLAIM_DELAY)
    && (forall i, j :: 0 <= i < j < |s| ==> s[i].id != s[j].id)
  }

  predicate RecentPending(s: seq<Evaluation>, now: int) {
    s != [] && s[|s| - 1].state == Pending && now - s[|s| - 1].createdAt < RECLAIM_DELAY
  }

  /** When a rule is due, on the columns: it is enabled and has no row; or its latest is pending for an
      hour; or its latest is evaluated and the next tick after it has come. */
  lemma IsDueHolds(rule: Rule, s: seq<Evaluation>, now: int)
    ensures s == [] ==> (IsDue(rule, s, now) <==> rule.enabled)
    ensures s != [] && s[|s| - 1].state == Pending ==>
      (IsDue(rule, s, now) <==> rule.enabled && now - s[|s| - 1].createdAt >= 3_600_000_000)
    ensures s != [] && s[|s| - 1].state != Pending ==>
      (IsDue(rule, s, now) <==> rule.enabled && rule.nextTick(s[|s| - 1].createdAt) <= now)
  {
  }

  predicate IsDue(rule: Rule, s: seq<Evaluation>, now: int) {
    && rule.enabled
    && (s == [] ||
        (if s[|s| - 1].state == Pending then now - s[|s| - 1].createdAt >= RECLAIM_DELAY
         else rule.nextTick(s[|s| - 1].createdAt) <= now))
  }

  function NewRow(id: int, now: int): Evaluation {
    Evaluation(id, now, Pending, false, None, None, [])
  }

  ghost predicate RuleOk(s: seq<Evaluation>, nextId: int, clock: int) {
    Spaced(s) && forall i :: 0 <= i < |s| ==> s[i].id < nextId && s[i].createdAt <= clock
  }

  /** The last of `n + 1` rows is pending since `now`, without result or sends. */
  predicate PendingSince(s: seq<Evaluation>, n: nat, now: int) {
    |s| == n + 1 && s[n] == Evaluation(s[n].id, now, Pending, false, None, None, [])
  }

  /** One pending row was added. */
  ghost predicate IsExtended(before: seq<Evaluation>, after: seq<Evaluation>, now: int) {
    |after| == |before| + 1 && after == before + [NewRow(after[|before|].id, now)]
  }

  lemma NewRowOk(s: seq<Evaluation>, id: int, clock: int, now: int)
    requires RuleOk(s, id, clock) && clock <= now && !RecentPending(s, now)
    ensures RuleOk(s + [NewRow(id, now)], id + 1, now)
  {
    var s' := s + [NewRow(id, now)];
    forall i | 0 <= i < |s'| - 1 && s'[i].state == Pending
      ensures s'[i + 1].createdAt - s'[i].createdAt >= RECLAIM_DELAY
    {
      assert s'[i] == s[i];
      if i < |s| - 1 { assert s'[i + 1] == s[i + 1]; }
    }
  }

  type Table = map<string, seq<Evaluation>>

  function RowsOf(t: Table, rule: string): seq<Evaluation> {
    if rule in t then t[rule] else []
  }

  ghost predicate TableOk(t: Table, nextId: int, clock: int) {
    forall rule :: RuleOk(RowsOf(t, rule), nextId, clock)
  }

  lemma LaterOk(t: Table, nextId: int, clock: int, now: int)
    requires TableOk(t, nextId, clock) && clock <= now
    ensures TableOk(t, nextId, now)
  {
    forall rule
      ensures RuleOk(RowsOf(t, rule), nextId, now)
    {
      assert RuleOk(RowsOf(t, rule), nextId, clock);
    }
  }

  lemma CreateOk(t: Table, rule: string, id: int, clock: int, now: int)
    requires TableOk(t, id, clock) && clock <= now && !RecentPending(RowsOf(t, rule), now)
    ensures TableOk(t[rule := RowsOf(t, rule) + [NewRow(id, now)]], id + 1, now)
  {
    var t' := t[rule := RowsOf(t, rule) + [NewRow(id, now)]];
    forall other
      ensures RuleOk(RowsOf(t', other), id + 1, now)
    {
      assert RuleOk(RowsOf(t, other), id, clock);
      if other == rule {
        NewRowOk(RowsOf(t, rule), id, clock, now);
      }
    }
  }

  lemma FinishOk(t: Table, rule: string, nextId: int, clock: int, i: nat, e: Evaluation)
    requires TableOk(t, nextId, clock) && i < |RowsOf(t, rule)|
    requires e.id == RowsOf(t, rule)[i].id && e.createdAt == RowsOf(t, rule)[i].createdAt && e.state != Pending
    ensures TableOk(t[rule := RowsOf(t, rule)[i := e]], nextId, clock)
  {
    var t' := t[rule := RowsOf(t, rule)[i := e]];
    forall other
      ensures RuleOk(RowsOf(t', other), nextId, clock)
    {
      assert RuleOk(RowsOf(t, other), nextId, clock);
      if other == rule {
        FinishedOk(RowsOf(t, rule), nextId, clock, i, e);
      }
    }
  }

  /** The first `n` due rules got a new pending row, the other rules are as before. */
  ghost predicate SweptUpTo(before: Table, after: Table, due: seq<string>, n: nat, now: int) {
    && n <= |due|
    && (forall m :: 0 <= m < n ==> IsExtended(RowsOf(before, due[m]), RowsOf(after, due[m]), now))
    && (forall rule :: rule !in due[..n] ==> RowsOf(after, rule) == RowsOf(before, rule))
  }

  lemma SweepStep(before: Table, t: Table, due: seq<string>, n: nat, now: int, id: int)
    requires NoDup(due) && n < |due| && SweptUpTo(before, t, due, n, now)
    ensures RowsOf(t, due[n]) == RowsOf(before, due[n])
    ensures SweptUpTo(before, t[due[n] := RowsOf(t, due[n]) + [NewRow(id, now)]], due, n + 1, now)
  {
    assert due[n] !in due[..n];
    assert due[..n + 1] == due[..n] + [due[n]];
    var t' := t[due[n] := RowsOf(t, due[n]) + [NewRow(id, now)]];
    forall m | 0 <= m < n + 1
      ensures IsExtended(RowsOf(before, due[m]), RowsOf(t', due[m]), now)
    {
      if m < n { assert due[m] != due[n]; }
    }
  }

  lemma SweptAll(before: Table, after: Table, due: seq<string>, now: int)
    requires SweptUpTo(before, after, due, |due|, now)
    ensures forall rule :: rule in due ==> IsExtended(RowsOf(before, rule), RowsOf(after, rule), now)
    ensures forall rule :: rule !in due ==> RowsOf(after, rule) == RowsOf(before, rule)
  {
    assert due[..|due|] == due;
    forall rule | rule in due
      ensures IsExtended(RowsOf(before, rule), RowsOf(after, rule), now)
    {
      var m :| 0 <= m < |due| && due[m] == rule;
    }
  }

  lemma FinishedOk(s: seq<Evaluation>, id: int, clock: int, i: nat, e: Evaluation)
    requires RuleOk(s, id, clock) && i < |s|
    requires e.id == s[i].id && e.createdAt == s[i].createdAt && e.state != Pending
    ensures RuleOk(s[i := e], id, clock)
  {
    var s' := s[i := e];
    assert forall k :: 0 <= k < |s| ==> s'[k].id == s[k].id && s'[k].createdAt == s[k].createdAt;
    assert forall k :: 0 <= k < |s| && s'[k].state == Pending ==> s[k].state == Pending;
  }

  /** Only the row at `i` changed, evaluated from what its listing shows. */
  ghost predicate EvaluatedAt(s: seq<Evaluation>, s': seq<Evaluation>, i: nat, measure: Measure,
                              keys: seq<string>, sends: Sends)
    requires i < |s| && (sends.Round? ==> |sends.works| == |keys|)
  {
    s' == s[i := Evaluated(s[i], Seen(s, s[i].id), measure, keys, sends)]
  }

  /** The state records the measure. */
  predicate StateIs(e: Evaluation, measure: Measure) {
    && (e.state == Firing <==> measure == Holds(true)) && (e.state == Ok <==> measure == Holds(false))
    && (e.state == Error <==> measure == Fails)
  }

  /** A rule's first evaluation, on the columns: a condition that holds is a transition and notifies, one
      that does not is silent. When every send works each channel is sent to and the row is delivered. */
  lemma FirstEvaluation(s: seq<Evaluation>, s': seq<Evaluation>, i: nat, condition: bool, keys: seq<string>,
                        works: seq<bool>)
    requires i < |s| && |works| == |keys| && EvaluatedAt(s, s', i, Holds(condition), keys, Round(works))
    requires Untouched(s[i]) && forall q :: 0 <= q < |s| && q != i ==> s[q].state == Pending
    ensures |s'| == |s| && s'[i].transitioned == condition && s'[i].status.Some? == condition
    ensures !condition ==> s'[i].sent == []
    ensures condition && (forall k :: 0 <= k < |works| ==> works[k]) ==>
      s'[i].sent == keys && s'[i].status == Some(Delivered)
    ensures condition && (exists k :: 0 <= k < |works| && !works[k]) ==> s'[i].status == Some(Failed)
  {
    NothingSeen(s, i);
    var skip: set<string> := SkipSet([], NewState(condition));
    assert skip == {};
    assert s[i].sent + RoundSent(keys, skip, works) == RoundSent(keys, skip, works);
    if forall k :: 0 <= k < |works| ==> works[k] { AllSent(keys, works); }
  }

  lemma NothingSeen(s: seq<Evaluation>, i: nat)
    requires i < |s| && forall q :: 0 <= q < |s| && q != i ==> s[q].state == Pending
    ensures Seen(s, s[i].id) == []
  {
    var w := Window(s);
    forall q | 0 <= q < |w|
      ensures !OtherTerminal(s[i].id)(w[q])
    {
      var k := if |s| <= HISTORY_LIMIT then q else |s| - HISTORY_LIMIT + q;
      assert w[q] == s[k];
    }
    FilterNone(w, OtherTerminal(s[i].id));
  }

  /** A later evaluation, on the columns: it is a transition if and only if its state differs from that of
      the last other evaluated row, which must be one of the last hundred; and only then, or after one to
      five failures in a row, may it notify. */
  lemma LaterEvaluation(s: seq<Evaluation>, s': seq<Evaluation>, i: nat, p: nat, condition: bool, keys: seq<string>,
                        sends: Sends)
    requires i < |s| && p < |s| && (sends.Round? ==> |sends.works| == |keys|)
    requires EvaluatedAt(s, s', i, Holds(condition), keys, sends)
    requires s[p].id != s[i].id && s[p].state != Pending && |s| - p <= 100
    requires forall q :: p < q < |s| ==> s[q].state == Pending || s[q].id == s[i].id
    ensures |s'| == |s| && s'[i].transitioned == (s[p].state != if condition then Firing else Ok)
    ensures s'[i].transitioned && s[i].status.None? ==> s'[i].status.Some?
    ensures s'[i].transitioned && sends.Breaks? ==> s'[i].status == Some(Failed) && s'[i].channels.None?
    ensures !s'[i].transitioned && s[p].status != Some(Failed) ==>
      s'[i].status == s[i].status && s'[i].sent == s[i].sent
  {
    LastSeen(s, i, p);
  }

  /** An evaluation that fails, on the columns: the state alone tells, and nobody is notified. */
  lemma FailedEvaluation(s: seq<Evaluation>, s': seq<Evaluation>, i: nat, keys: seq<string>, sends: Sends)
    requires i < |s| && (sends.Round? ==> |sends.works| == |keys|) && EvaluatedAt(s, s', i, Fails, keys, sends)
    ensures |s'| == |s| && s'[i] == s[i].(state := Error, transitioned := false)
    ensures forall k :: 0 <= k < |s| && k != i ==> s'[k] == s[k]
  {
  }

  lemma LastSeen(s: seq<Evaluation>, i: nat, p: nat)
    requires i < |s| && p < |s| && s[p].id != s[i].id && s[p].state != Pending && |s| - p <= 100
    requires forall q :: p < q < |s| ==> s[q].state == Pending || s[q].id == s[i].id
    ensures Seen(s, s[i].id) != [] && Seen(s, s[i].id)[|Seen(s, s[i].id)| - 1] == s[p]
  {
    var a := WindowAround(s, p);
    NoneAfter(s, i, p);
    LastMatches(Window(s), a, s[p], s[p + 1..], OtherTerminal(s[i].id));
  }

  lemma WindowAround(s: seq<Evaluation>, p: nat) returns (a: seq<Evaluation>)
    requires p < |s| && |s| - p <= 100
    ensures Window(s) == a + ([s[p]] + s[p + 1..])
  {
    a := s[if |s| <= 100 then 0 else |s| - 100..p];
  }

  lemma NoneAfter(s: seq<Evaluation>, i: nat, p: nat)
    requires i < |s| && p < |s| && forall q :: p < q < |s| ==> s[q].state == Pending || s[q].id == s[i].id
    ensures Filter(s[p + 1..], OtherTerminal(s[i].id)) == []
  {
    var rest := s[p + 1..];
    forall q | 0 <= q < |rest|
      ensures !OtherTerminal(s[i].id)(rest[q])
    {
      assert rest[q] == s[p + 1 + q];
    }
    FilterNone(rest, OtherTerminal(s[i].id));
  }

  lemma LastMatches(s: seq<Evaluation>, a: seq<Evaluation>, x: Evaluation, b: seq<Evaluation>, p: Evaluation -> bool)
    requires s == a + ([x] + b) && p(x) && Filter(b, p) == []
    ensures Filter(s, p) == Filter(a, p) + [x]
  {
    FilterConcat(a, [x] + b, p);
    FilterConcat([x], b, p);
    FilterOne(x, p);
  }

  /** The listing: the last hundred rows, or all. */
  lemma WindowIsLast(s: seq<Evaluation>)
    ensures |Window(s)| == if |s| <= 100 then |s| else 100
    ensures Window(s) == s[|s| - |Window(s)|..]
  {
  }

  /** On a new row that is a legal completion. */
  lemma EvaluatedCompletes(s: seq<Evaluation>, s': seq<Evaluation>, i: nat, measure: Measure,
                           keys: seq<string>, sends: Sends)
    requires i < |s| && Untouched(s[i]) && (sends.Round? ==> |sends.works| == |keys|)
    requires EvaluatedAt(s, s', i, measure, keys, sends)
    ensures Completes(s, s', i, keys)
  {
    EvaluatedIsLegal(s[i], Seen(s, s[i].id), measure, keys, sends);
  }

  class AlertStore {
    /** Evaluations of each rule in creation order. */
    var evaluations: Table
    var nextId: int
    var clock: int

    constructor (now: int)
      ensures Valid() && evaluations == map[] && nextId == 0 && clock == now
    {
      evaluations, nextId, clock := map[], 0, now;
    }

    function Of(rule: string): seq<Evaluation>
      reads this
    {
      RowsOf(evaluations, rule)
    }

    ghost predicate Valid()
      reads this
    {
      TableOk(evaluations, nextId, clock)
    }

    method CreateEvaluation(rule: string, now: int) returns (id: int)
      requires Valid() && now >= clock
      modifies this
      ensures clock == now && id == old(nextId) && nextId == id + 1
      // callers look for a young pending row first
      ensures !RecentPending(old(Of(rule)), now) ==> Valid()
      ensures evaluations == old(evaluations)[rule := old(Of(rule)) + [NewRow(id, now)]]
      // on the row: pending since now, without result or sends
      ensures Of(rule) == old(Of(rule)) + [Evaluation(id, now, Pending, false, None, None, [])]
    {
      if !RecentPending(Of(rule), now) {
        CreateOk(evaluations, rule, nextId, clock, now);
      }
      id := nextId;
      evaluations := evaluations[rule := Of(rule) + [NewRow(id, now)]];
      nextId, clock := id + 1, now;
    }

    /** Manual trigger: reuses a pending evaluation younger than the reclaim delay. */
    method EvaluateNow(rule: string, now: int) returns (id: int, created: bool)
      requires Valid() && now >= clock
      modifies this
      ensures Valid() && clock == now
      ensures created <==> !RecentPending(old(Of(rule)), now)
      // on the rows: reused when the latest is pending and younger than an hour
      ensures !created ==> old(Of(rule)) != [] && old(Of(rule))[|old(Of(rule))| - 1].state == Pending
      ensures old(Of(rule)) != [] && old(Of(rule))[|old(Of(rule))| - 1].state == Pending ==>
        (!created <==> now - old(Of(rule))[|old(Of(rule))| - 1].createdAt < 3_600_000_000)
      ensures created ==> evaluations == old(evaluations)[rule := old(Of(rule)) + [NewRow(id, now)]]
      ensures !created ==> evaluations == old(evaluations) && id == Of(rule)[|Of(rule)| - 1].id
    {
      var s := Of(rule);
      if s != [] && s[|s| - 1].state == Pending && now - s[|s| - 1].createdAt < RECLAIM_DELAY {
        LaterOk(evaluations, nextId, clock, now);
        clock := now;
        return s[|s| - 1].id, false;
      }
      id := CreateEvaluation(rule, now);
      created := true;
    }

    method ListDueRules(candidates: seq<Rule>, now: int) returns (due: seq<string>)
      ensures forall id :: id in due <==>
        exists i :: 0 <= i < |candidates| && candidates[i].id == id && IsDue(candidates[i], Of(id), now)
      ensures (forall i, j :: 0 <= i < j < |candidates| ==> candidates[i].id != candidates[j].id) ==> NoDup(due)
    {
      due := [];
      for n := 0 to |candidates|
        invariant forall id :: id in due <==>
          exists i :: 0 <= i < n && candidates[i].id == id && IsDue(candidates[i], Of(id), now)
        invariant (forall i, j :: 0 <= i < j < |candidates| ==> candidates[i].id != candidates[j].id) ==> NoDup(due)
      {
        var rule := candidates[n];
        if !rule.enabled {
          continue;
        }
        var s := Of(rule.id);
        if s == [] {
          due := due + [rule.id];
          continue;
        }
        var latest := s[|s| - 1];
        if latest.state == Pending {
          if now - latest.createdAt < RECLAIM_DELAY {
            continue;
          }
          due := due + [rule.id];
          continue;
        }
        if rule.nextTick(latest.createdAt) <= now {
          due := due + [rule.id];
        }
      }
    }

    /** One sweep: a new pending evaluation for each due rule, nothing else. */
    method Sweep(candidates: seq<Rule>, now: int) returns (due: seq<string>)
      requires Valid() && now >= clock
      requires forall i, j :: 0 <= i < j < |candidates| ==> candidates[i].id != candidates[j].id
      modifies this
      ensures Valid()
      ensures forall id :: id in due <==>
        exists i :: 0 <= i < |candidates| && candidates[i].id == id && IsDue(candidates[i], old(Of(id)), now)
      ensures forall rule :: rule in due ==> IsExtended(old(Of(rule)), Of(rule), now)
      ensures forall rule :: rule !in due ==> Of(rule) == old(Of(rule))
      // on the rows of a due rule: one more, pending since now
      ensures forall rule :: rule in due ==> PendingSince(Of(rule), |old(Of(rule))|, now)
    {
      due := ListDueRules(candidates, now);
      ghost var before := evaluations;
      assert forall n :: 0 <= n < |due| ==> due[n] in due;
      for n := 0 to |due|
        invariant Valid() && now >= clock && SweptUpTo(before, evaluations, due, n, now)
        invariant forall m :: 0 <= m < |due| ==> !RecentPending(RowsOf(before, due[m]), now)
      {
        SweepStep(before, evaluations, due, n, now, nextId);
        var id := CreateEvaluation(due[n], now);
      }
      SweptAll(before, evaluations, due, now);
    }

    /** An evaluation of one pending row. */
    method EvaluateTask(rule: string, id: int, measure: Measure, keys: seq<string>, sends: Sends)
      returns (ghost c: nat)
      requires Valid()
      requires sends.Round? ==> |sends.works| == |keys|
      modifies this`evaluations
      ensures Valid()
      ensures (forall i :: 0 <= i < |old(Of(rule))| ==> old(Of(rule))[i].id != id) ==> evaluations == old(evaluations)
      ensures forall i :: 0 <= i < |old(Of(rule))| && old(Of(rule))[i].id == id ==>
        c == i && EvaluatedAt(old(Of(rule)), Of(rule), i, measure, keys, sends)
      // on the state of its row: firing exactly when the condition was found to hold
      ensures forall i :: 0 <= i < |old(Of(rule))| && old(Of(rule))[i].id == id ==>
        i < |Of(rule)| && StateIs(Of(rule)[i], measure)
      ensures forall other :: other != rule ==> Of(other) == old(Of(other))
    {
      var s := Of(rule);
      DistinctRows(evaluations, rule, nextId, clock);
      c := 0;
      var i := 0;
      while i < |s| && s[i].id != id
        invariant i <= |s| && forall j :: 0 <= j < i ==> s[j].id != id
      {
        i := i + 1;
      }
      if i == |s| {
        return;
      }
      c := i;
      var e := Evaluate(s, i, measure, keys, sends);
      EvaluatedFacts(s[i], Seen(s, id), measure, keys, sends);
      FinishOk(evaluations, rule, nextId, clock, i, e);
      evaluations := evaluations[rule := s[i := e]];
      assert forall j :: 0 <= j < |s| && s[j].id == id ==> j == i;
    }
  }

  lemma DistinctRows(t: Table, rule: string, nextId: int, clock: int)
    requires TableOk(t, nextId, clock)
    ensures Spaced(RowsOf(t, rule))
  {
    assert RuleOk(RowsOf(t, rule), nextId, clock);
  }

  /** The row an evaluation writes, from what the listing shows. */
  method Evaluate(s: seq<Evaluation>, c: nat, measure: Measure, keys: seq<string>, sends: Sends) returns (e: Evaluation)
    requires c < |s| && (sends.Round? ==> |sends.works| == |keys|)
    ensures e == Evaluated(s[c], Seen(s, s[c].id), measure, keys, sends)
    // on the state: what was measured
    ensures (e.state == Firing <==> measure == Holds(true)) && (e.state == Ok <==> measure == Holds(false))
    ensures e.state == Error <==> measure == Fails
  {
    e := s[c];
    if measure.Fails? {
      return e.(state := Error, transitioned := false);
    }
    var newState := NewState(measure.condition);
    var history := Reverse(Window(s));
    ghost var seen := Seen(s, e.id);
    FilterReverse(Window(s), OtherTerminal(e.id));
    var previous := PreviousTerminal(history, e.id, seen);
    var transitioned := if previous.None? then newState == Firing else previous.value.state != newState;
    var retry := ShouldRetry(history, e.id, newState, seen);
    retry := retry && !transitioned;
    var delivered: set<string> := {};
    if retry {
      delivered := if previous.None? || previous.value.channels.None? then {}
      else set k | k in previous.value.channels.value && previous.value.channels.value[k] == Delivered;
    }
    assert delivered == SkipSet(seen, newState);
    e := e.(state := newState, transitioned := transitioned);
    if transitioned || retry {
      e := NotifyRow(e, keys, delivered, sends);
    }
  }

  /** A round of notifications, or its breakdown, recorded on the row. */
  method NotifyRow(e: Evaluation, keys: seq<string>, skip: set<string>, sends: Sends) returns (r: Evaluation)
    requires sends.Round? ==> |sends.works| == |keys|
    ensures r == Notified(e, keys, skip, sends)
  {
    match sends
    case Round(works) =>
      var failed, channels, sent := Notify(keys, skip, works);
      r := e.(status := Some(if failed then Failed else Delivered), channels := Some(channels), sent := e.sent + sent);
    case Breaks(sent) =>
      r := e.(status := Some(Failed), channels := None, sent := e.sent + sent);
  }

  /** At any time a rule has at most one pending evaluation younger than the reclaim delay. */
  lemma OneYoungPending(s: seq<Evaluation>, now: int, i: nat, j: nat)
    requires Spaced(s) && i < j < |s| && now >= s[j].createdAt
    requires s[i].state == Pending
    ensures now - s[i].createdAt >= 3_600_000_000
  {
    assert s[i + 1].createdAt <= s[j].createdAt;
  }

  /** A new row keeps pending rows apart if and only if the latest is not a young pending one: so
      what is checked before must still hold when the row is committed. */
  lemma NewRowOkIff(s: seq<Evaluation>, id: int, clock: int, now: int)
    requires RuleOk(s, id, clock) && clock <= now
    ensures RuleOk(s + [NewRow(id, now)], id + 1, now) <==> !RecentPending(s, now)
  {
    if RecentPending(s, now) {
      var s' := s + [NewRow(id, now)];
      assert s'[|s| - 1] == s[|s| - 1] && s'[|s|] == NewRow(id, now);
    } else {
      NewRowOk(s, id, clock, now);
    }
  }

  /** The same rule later: rows were added and evaluated. */
  ghost predicate LaterRows(s: seq<Evaluation>, s': seq<Evaluation>) {
    && |s| <= |s'|
    && (forall i :: 0 <= i < |s| ==> s'[i].createdAt == s[i].createdAt)
    && (forall i :: 0 <= i < |s| && s[i].state != Pending ==> s'[i].state != Pending)
  }

  /** A sweep lists the due rules and commits rule by rule. When the turn of a due rule comes, its new
      row keeps pending rows apart if and only if no row was added since the listing, or the latest is
      evaluated or old by now. */
  lemma SweepTurnIff(rule: Rule, listed: seq<Evaluation>, start: int, s: seq<Evaluation>, id: int, clock: int, now: int)
    requires IsDue(rule, listed, start) && LaterRows(listed, s) && start <= now
    requires RuleOk(s, id, clock) && clock <= now
    ensures RuleOk(s + [NewRow(id, now)], id + 1, now) <==> |s| == |listed| || !RecentPending(s, now)
  {
    NewRowOkIff(s, id, clock, now);
    if |s| == |listed| && s != [] {
      var last := |s| - 1;
      assert s[last].createdAt == listed[last].createdAt;
    }
  }

  /** So a manual trigger between the listing and the turn of a due
      rule leaves two young pending rows. */
  lemma TriggerDuringSweep(rule: Rule, s: seq<Evaluation>, id: int, clock: int, now: int)
    requires RuleOk(s, id, clock) && clock <= now && IsDue(rule, s, now)
    ensures RuleOk(s + [NewRow(id, now)], id + 1, now)
    ensures !RuleOk(s + [NewRow(id, now)] + [NewRow(id + 1, now)], id + 2, now)
  {
    NewRowOkIff(s, id, clock, now);
    NewRowOkIff(s + [NewRow(id, now)], id + 1, now, now);
  }

  // ---------------------------------------------------------------- runs of one rule

  /** Evaluations finish in creation order: everything created after `c` is still pending. */
  ghost predicate InOrder(s: seq<Evaluation>, c: nat) {
    c < |s| && forall i :: c <= i < |s| ==> s[i].state == Pending
  }

  /** The listing reaches far enough: it holds every terminal row, or more than a retry budget. */
  ghost predicate SeesEnough(s: seq<Evaluation>) {
    Terminals(Window(s)) == Terminals(s) || |Terminals(Window(s))| > MAX_NOTIFY_RETRIES
  }

  lemma SeenIsTerminals(s: seq<Evaluation>, c: nat)
    requires c < |s| && s[c].state == Pending
    requires forall i, j :: 0 <= i < j < |s| ==> s[i].id != s[j].id
    ensures Seen(s, s[c].id) == Terminals(Window(s))
  {
    var w := Window(s);
    forall i | 0 <= i < |w|
      ensures OtherTerminal(s[c].id)(w[i]) == Terminal()(w[i])
    {
      var k := if |s| <= HISTORY_LIMIT then i else |s| - HISTORY_LIMIT + i;
      assert w[i] == s[k];
      assert s[k].id == s[c].id ==> k == c;
    }
    FilterSame(w, OtherTerminal(s[c].id), Terminal());
  }

  lemma {:induction false} FilterSame(s: seq<Evaluation>, p: Evaluation -> bool, q: Evaluation -> bool)
    requires forall i :: 0 <= i < |s| ==> p(s[i]) == q(s[i])
    ensures Filter(s, p) == Filter(s, q)
  {
    if s != [] {
      FilterSame(s[..|s| - 1], p, q);
    }
  }

  /** The terminal rows in the window are the last ones. */
  lemma WindowIsSuffix(s: seq<Evaluation>) returns (d: nat)
    ensures d <= |Terminals(s)| && Terminals(Window(s)) == Terminals(s)[d..]
  {
    if |s| <= HISTORY_LIMIT {
      d := 0;
      assert Terminals(s)[0..] == Terminals(s);
    } else {
      var cut := |s| - HISTORY_LIMIT;
      assert s == s[..cut] + s[cut..];
      FilterConcat(s[..cut], s[cut..], Terminal());
      d := |Terminals(s[..cut])|;
      assert (Terminals(s[..cut]) + Terminals(s[cut..]))[d..] == Terminals(s[cut..]);
    }
  }

  lemma {:induction false} FailuresOfSuffix(h: seq<Evaluation>, d: nat)
    requires d <= |h|
    ensures Failures(h[d..]) == if Failures(h) < |h| - d then Failures(h) else |h| - d
    decreases |h| - d
  {
    if d < |h| && h[|h| - 1].status == Some(Failed) {
      var init := h[..|h| - 1];
      FailuresOfSuffix(init, d);
      assert h[d..][..|h| - d - 1] == init[d..];
      assert h[d..][|h| - d - 1] == h[|h| - 1];
    } else if d < |h| {
      assert h[d..][|h| - d - 1] == h[|h| - 1];
    }
  }

  /** Seeing more than five terminal rows is as good as seeing all of them. */
  lemma EnoughIsAll(h: seq<Evaluation>, d: nat, e: Evaluation, keys: seq<string>)
    requires d <= |h| && (d == 0 || |h| - d > MAX_NOTIFY_RETRIES)
    ensures Legal(h[d..], e, keys) <==> Legal(h, e, keys)
  {
    FailuresOfSuffix(h, d);
    if d == 0 {
      assert h[0..] == h;
    } else {
      assert h[d..][|h| - d - 1] == h[|h| - 1];
      assert Transitions(h[d..], e.state) == Transitions(h, e.state);
      assert RetryDue(h[d..], e.state) == RetryDue(h, e.state);
      assert SkipSet(h[d..], e.state) == SkipSet(h, e.state);
    }
  }

  /** Completing a row in order appends it to the terminal ones, wherever pending rows lie. */
  lemma CompletionAppends(s: seq<Evaluation>, c: nat, e: Evaluation)
    requires InOrder(s, c) && e.state != Pending
    ensures Terminals(s[c := e]) == Terminals(s) + [e]
  {
    var a, b := s[..c], s[c + 1..];
    FilterNone(b, Terminal());
    Pieces(s, c, s[c]);
    Pieces(s, c, e);
    SplitTerminals(s, a, s[c], b);
    SplitTerminals(s[c := e], a, e, b);
  }

  lemma Pieces(s: seq<Evaluation>, c: nat, e: Evaluation)
    requires c < |s|
    ensures s[c := e] == s[..c] + [e] + s[c + 1..] && s[c := s[c]] == s
  {
  }

  lemma SplitTerminals(s: seq<Evaluation>, a: seq<Evaluation>, e: Evaluation, b: seq<Evaluation>)
    requires s == a + [e] + b && Terminals(b) == []
    ensures Terminals(s) == if e.state != Pending then Terminals(a) + [e] else Terminals(a)
  {
    FilterConcat(a + [e], b, Terminal());
    FilterConcat(a, [e], Terminal());
    FilterOne(e, Terminal());
  }

  datatype RuleLog = RuleLog(rows: seq<Evaluation>, rules: seq<seq<string>>)

  ghost predicate LogOk(g: RuleLog) {
    && (forall i, j :: 0 <= i < j < |g.rows| ==> g.rows[i].id != g.rows[j].id)
    && (forall i :: 0 <= i < |g.rows| && g.rows[i].state == Pending ==> Untouched(g.rows[i]))
    && History(Terminals(g.rows), g.rules)
  }

  ghost predicate Created(g: RuleLog, g': RuleLog, id: int, now: int) {
    && (forall i :: 0 <= i < |g.rows| ==> g.rows[i].id != id)
    && g' == g.(rows := g.rows + [NewRow(id, now)])
  }

  /** A task finishes, in creation order and with the listing reaching far enough. */
  ghost predicate Finished(g: RuleLog, g': RuleLog, c: nat, keys: seq<string>) {
    && InOrder(g.rows, c) && SeesEnough(g.rows)
    && Completes(g.rows, g'.rows, c, keys)
    && g'.rules == g.rules + [keys]
  }

  ghost predicate LogStep(g: RuleLog, g': RuleLog) {
    (exists id, now :: Created(g, g', id, now)) || (exists c, keys :: Finished(g, g', c, keys))
  }

  lemma PendingAdds(s: seq<Evaluation>, e: Evaluation)
    requires e.state == Pending
    ensures Terminals(s + [e]) == Terminals(s)
  {
    FilterConcat(s, [e], Terminal());
    FilterOne(e, Terminal());
  }

  lemma CreatedKeeps(g: RuleLog, g': RuleLog, id: int, now: int)
    requires LogOk(g) && Created(g, g', id, now)
    ensures LogOk(g')
  {
    PendingAdds(g.rows, NewRow(id, now));
  }

  lemma HistoryGrows(h: seq<Evaluation>, rules: seq<seq<string>>, e: Evaluation, keys: seq<string>)
    requires History(h, rules) && Legal(h, e, keys)
    ensures History(h + [e], rules + [keys])
  {
    forall i | 0 <= i < |h| + 1
      ensures Legal((h + [e])[..i], (h + [e])[i], (rules + [keys])[i])
    {
      if i < |h| {
        assert (h + [e])[..i] == h[..i];
        assert Legal(h[..i], h[i], rules[i]);
      } else {
        assert (h + [e])[..i] == h;
      }
    }
  }

  lemma FinishedKeeps(g: RuleLog, g': RuleLog, c: nat, keys: seq<string>)
    requires LogOk(g) && Finished(g, g', c, keys)
    ensures LogOk(g') && Terminals(g'.rows) == Terminals(g.rows) + [g'.rows[c]]
  {
    var h, e := Terminals(g.rows), g'.rows[c];
    SeenIsTerminals(g.rows, c);
    var d := WindowIsSuffix(g.rows);
    if h[d..] == h {
      assert Legal(h, e, keys);
    } else {
      EnoughIsAll(h, d, e, keys);
    }
    CompletionAppends(g.rows, c, e);
    HistoryGrows(h, g.rules, e, keys);
    forall i | 0 <= i < |g'.rows| && g'.rows[i].state == Pending
      ensures Untouched(g'.rows[i])
    {
      assert i != c ==> g'.rows[i] == g.rows[i];
    }
  }

  ghost predicate LogRun(run: seq<RuleLog>) {
    && run != [] && run[0] == RuleLog([], [])
    && forall i :: 0 <= i < |run| - 1 ==> LogStep(run[i], run[i + 1])
  }

  /** In every run, pending rows that a reclaim left behind included, the terminal evaluations
      form a history: the episode theorems apply to it. */
  lemma {:induction false} RunIsHistory(run: seq<RuleLog>, i: nat)
    requires LogRun(run) && i < |run|
    ensures LogOk(run[i])
  {
    if i > 0 {
      RunIsHistory(run, i - 1);
      var g, g' := run[i - 1], run[i];
      assert LogStep(g, g');
      if id, now :| Created(g, g', id, now) {
        CreatedKeeps(g, g', id, now);
      } else {
        var c, keys :| Finished(g, g', c, keys);
        FinishedKeeps(g, g', c, keys);
      }
    }
  }
}
