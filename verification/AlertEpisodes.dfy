/** What one alert rule's terminal evaluations look like over time: transitions, bounded
    retries and per-channel delivery memory (core/app/alerts/jobs.py). */
module AlertEpisodes {
  import opened Wrappers
  import opened Seqs

  datatype State = Pending | Ok | Firing | Error

  datatype Status = Delivered | Failed

  /** A row of `alert_evaluations`. `sent` lists the channels successfully sent to during this
      evaluation, as its `alert.notify` audit rows do. */
  datatype Evaluation = Evaluation(id: int, createdAt: int, state: State, transitioned: bool,
                                   status: Option<Status>, channels: Option<map<string, Status>>, sent: seq<string>)

  const MAX_NOTIFY_RETRIES: nat := 5

  // ---------------------------------------------------------------- one notification round

  /** Status per channel after one round over the rule's channels, `works` telling which sends
      succeed; channels in `skip` are not sent to and count as delivered. */
  function RoundStatus(keys: seq<string>, skip: set<string>, works: seq<bool>): map<string, Status>
    requires |works| == |keys|
  {
    if keys == [] then map[]
    else
      var n := |keys| - 1;
      RoundStatus(keys[..n], skip, works[..n])[keys[n] := if keys[n] in skip || works[n] then Delivered else Failed]
  }

  function RoundSent(keys: seq<string>, skip: set<string>, works: seq<bool>): seq<string>
    requires |works| == |keys|
  {
    if keys == [] then []
    else
      var n := |keys| - 1;
      RoundSent(keys[..n], skip, works[..n]) + if keys[n] !in skip && works[n] then [keys[n]] else []
  }

  predicate RoundFails(keys: seq<string>, skip: set<string>, works: seq<bool>)
    requires |works| == |keys|
  {
    exists i :: 0 <= i < |keys| && keys[i] !in skip && !works[i]
  }

  /** Channels marked delivered on an evaluation; none when the map is missing. */
  function DeliveredOn(e: Evaluation): set<string> {
    if e.channels.None? then {}
    else set k | k in e.channels.value && e.channels.value[k] == Delivered
  }

  // ---------------------------------------------------------------- one evaluation

  /** Trailing evaluations whose notification failed. */
  function Failures(past: seq<Evaluation>): nat {
    if past == [] || past[|past| - 1].status != Some(Failed) then 0
    else 1 + Failures(past[..|past| - 1])
  }

  function Transitions(past: seq<Evaluation>, next: State): bool {
    if past == [] then next == Firing else past[|past| - 1].state != next
  }

  function RetryDue(past: seq<Evaluation>, next: State): bool {
    past != [] && past[|past| - 1].state == next && 0 < Failures(past) <= MAX_NOTIFY_RETRIES
  }

  function SkipSet(past: seq<Evaluation>, next: State): set<string> {
    if !Transitions(past, next) && RetryDue(past, next) then DeliveredOn(past[|past| - 1]) else {}
  }

  predicate Attempted(e: Evaluation) {
    e.status.Some?
  }

  /** `works` is how the sends went. */
  ghost predicate RoundOf(e: Evaluation, keys: seq<string>, skip: set<string>, works: seq<bool>) {
    && |works| == |keys|
    && e.status == Some(if RoundFails(keys, skip, works) then Failed else Delivered)
    && e.channels == Some(RoundStatus(keys, skip, works))
    && e.sent == RoundSent(keys, skip, works)
  }

  /** The notification pipeline itself failed: nothing is remembered of the channels. */
  ghost predicate Backstop(e: Evaluation) {
    e.status == Some(Failed) && e.channels.None?
  }

  /** `e` may follow `past` for a rule with these channels. */
  ghost predicate Legal(past: seq<Evaluation>, e: Evaluation, keys: seq<string>) {
    match e.state
    case Pending => false
    case Error => !e.transitioned && e.status.None? && e.channels.None? && e.sent == []
    case _ =>
      && e.transitioned == Transitions(past, e.state)
      && if e.transitioned || RetryDue(past, e.state)
         then Backstop(e) || exists works :: RoundOf(e, keys, SkipSet(past, e.state), works)
         else e.status.None? && e.channels.None? && e.sent == []
  }

  /** A rule's history: each evaluation legal after the previous ones, `rules[i]` being the
      rule's channels at evaluation `i`. */
  ghost predicate History(h: seq<Evaluation>, rules: seq<seq<string>>) {
    |rules| == |h| && forall i {:trigger Legal(h[..i], h[i], rules[i])} :: 0 <= i < |h| ==>
      Legal(h[..i], h[i], rules[i])
  }

  /** Indices `a..j` are one episode so far: same state, and `a` starts it. */
  ghost predicate Episode(h: seq<Evaluation>, a: nat, j: nat) {
    && a <= j < |h|
    && (forall i :: a <= i <= j ==> h[i].state == h[a].state)
    && (a > 0 ==> h[a - 1].state != h[a].state)
  }

  ghost predicate AllFailed(h: seq<Evaluation>, a: nat, j: nat)
    requires j <= |h|
  {
    forall i :: a <= i < j ==> h[i].status == Some(Failed)
  }

  // ---------------------------------------------------------------- attempts

  /** An episode that never notifies: errors, and a rule whose first observation is "ok". */
  predicate Silent(h: seq<Evaluation>, a: nat)
    requires a < |h|
  {
    h[a].state == Error || (a == 0 && h[a].state == Ok)
  }

  lemma {:induction false} FailuresAcross(h: seq<Evaluation>, a: nat, j: nat)
    requires a <= j <= |h| && AllFailed(h, a, j)
    ensures Failures(h[..j]) == j - a + Failures(h[..a])
  {
    if a < j {
      FailuresAcross(h, a, j - 1);
      assert h[..j][..j - 1] == h[..j - 1];
    }
  }

  lemma LegalAttempt(h: seq<Evaluation>, rules: seq<seq<string>>, j: nat)
    requires History(h, rules) && j < |h|
    ensures h[j].state != Pending
    ensures Attempted(h[j]) <==>
      h[j].state != Error && (Transitions(h[..j], h[j].state) || RetryDue(h[..j], h[j].state))
  {
    assert Legal(h[..j], h[j], rules[j]);
  }

  /** When an evaluation notifies, exactly: the first of its episode unless the episode is
      silent; a later one when every earlier one of the episode failed to deliver and, counting
      also the failures that immediately precede the episode, at most five did. */
  lemma {:induction false} AttemptsExactly(h: seq<Evaluation>, rules: seq<seq<string>>, a: nat, j: nat)
    requires History(h, rules) && Episode(h, a, j)
    ensures h[j].status.Some? <==>
      !Silent(h, a) && AllFailed(h, a, j) && (j == a || j - a + Failures(h[..a]) <= 5)
    decreases j
  {
    LegalAttempt(h, rules, a);
    LegalAttempt(h, rules, j);
    if j > a {
      assert Episode(h, a, j - 1);
      AttemptsExactly(h, rules, a, j - 1);
      var past := h[..j];
      assert past[|past| - 1] == h[j - 1];
      if AllFailed(h, a, j) {
        FailuresAcross(h, a, j);
      } else if h[j - 1].status == Some(Failed) {
        assert AllFailed(h, a, j - 1);
      }
    }
  }

  /** Only the first evaluation of an episode is a transition, so the owner hears of it once. */
  lemma TransitionsExactly(h: seq<Evaluation>, rules: seq<seq<string>>, a: nat, j: nat)
    requires History(h, rules) && Episode(h, a, j)
    ensures h[j].transitioned <==> j == a && !Silent(h, a)
  {
    assert Legal(h[..j], h[j], rules[j]);
    if j > a {
      assert h[..j][|h[..j]| - 1] == h[j - 1];
    }
  }

  /** Within an episode the attempts are its first evaluations, at most 1 + 5 of them, and all
      but the last failed. */
  lemma AttemptsArePrefix(h: seq<Evaluation>, rules: seq<seq<string>>, a: nat, i: nat, j: nat)
    requires History(h, rules) && Episode(h, a, j) && a <= i < j
    requires Attempted(h[j])
    ensures Attempted(h[i]) && h[i].status == Some(Failed)
    ensures j - a <= 5 && Failures(h[..a]) < 5
  {
    AttemptsExactly(h, rules, a, j);
  }

  /** The retry budget is shared with a failed episode just before: five trailing failures
      leave the next episode its first attempt only. */
  lemma SharedBudget(h: seq<Evaluation>, rules: seq<seq<string>>, a: nat, j: nat)
    requires History(h, rules) && Episode(h, a, j) && !Silent(h, a)
    requires Failures(h[..a]) >= 5
    ensures Attempted(h[j]) <==> j == a
  {
    AttemptsExactly(h, rules, a, j);
  }

  // ---------------------------------------------------------------- deliveries

  lemma {:induction false} StatusFacts(keys: seq<string>, skip: set<string>, works: seq<bool>, k: string)
    requires |works| == |keys| && NoDup(keys)
    ensures k in RoundStatus(keys, skip, works) <==> k in keys
    ensures k in keys ==> (RoundStatus(keys, skip, works)[k] == Delivered <==>
      k in skip || k in RoundSent(keys, skip, works))
    ensures k in RoundSent(keys, skip, works) ==> k in keys && k !in skip
  {
    if keys != [] {
      var n := |keys| - 1;
      var status, sent := RoundStatus(keys[..n], skip, works[..n]), RoundSent(keys[..n], skip, works[..n]);
      StatusFacts(keys[..n], skip, works[..n], k);
      assert keys == keys[..n] + [keys[n]] && keys[n] !in keys[..n];
      var now := if keys[n] !in skip && works[n] then [keys[n]] else [];
      assert RoundSent(keys, skip, works) == sent + now;
      assert RoundStatus(keys, skip, works) ==
             status[keys[n] := if keys[n] in skip || works[n] then Delivered else Failed];
      if k == keys[n] {
        assert k !in keys[..n] && k !in sent;
      } else {
        assert k in keys <==> k in keys[..n];
        assert k !in now;
      }
    }
  }

  lemma {:induction false} SentFacts(keys: seq<string>, skip: set<string>, works: seq<bool>, k: string)
    requires |works| == |keys| && NoDup(keys)
    ensures k in RoundSent(keys, skip, works) ==> k in keys
    ensures multiset(RoundSent(keys, skip, works))[k] <= 1
  {
    if keys != [] {
      var n := |keys| - 1;
      var init, last := keys[..n], keys[n];
      var sent, now := RoundSent(init, skip, works[..n]), if last !in skip && works[n] then [last] else [];
      SentFacts(init, skip, works[..n], k);
      LastIsNew(keys, k);
      AddOne(sent, now, last, k);
      assert RoundSent(keys, skip, works) == sent + now;
    }
  }

  lemma LastIsNew(keys: seq<string>, k: string)
    requires keys != [] && NoDup(keys)
    ensures k in keys <==> k in keys[..|keys| - 1] || k == keys[|keys| - 1]
    ensures k == keys[|keys| - 1] ==> k !in keys[..|keys| - 1]
  {
    assert keys == keys[..|keys| - 1] + [keys[|keys| - 1]];
  }

  lemma AddOne(sent: seq<string>, now: seq<string>, key: string, k: string)
    requires now == [] || now == [key]
    requires multiset(sent)[k] <= 1 && (k == key ==> k !in sent)
    ensures multiset(sent + now)[k] <= 1
    ensures k in sent + now ==> k in sent || k == key
  {
    CountConcat(sent, now, k);
  }

  lemma {:induction false} NoFailureFacts(keys: seq<string>, skip: set<string>, works: seq<bool>, k: string)
    requires |works| == |keys| && !RoundFails(keys, skip, works)
    ensures k in keys ==> k in RoundStatus(keys, skip, works) && RoundStatus(keys, skip, works)[k] == Delivered
  {
    if keys != [] {
      var n := |keys| - 1;
      assert forall i :: 0 <= i < |keys| ==> keys[i] in skip || works[i];
      assert forall i :: 0 <= i < n ==> keys[..n][i] == keys[i] && works[..n][i] == works[i];
      NoFailureFacts(keys[..n], skip, works[..n], k);
      assert keys == keys[..n] + [keys[n]];
      assert keys[n] in skip || works[n];
    }
  }

  lemma CountConcat(a: seq<string>, b: seq<string>, k: string)
    ensures multiset(a + b)[k] == multiset(a)[k] + multiset(b)[k]
    ensures k in a <==> multiset(a)[k] > 0
    ensures k in b <==> multiset(b)[k] > 0
  {
  }

  /** Over distinct channels: delivered means skipped or sent now, everything sent is new and
      sent once, and a round without failure delivers to all. */
  lemma RoundFacts(keys: seq<string>, skip: set<string>, works: seq<bool>, k: string)
    requires |works| == |keys| && NoDup(keys)
    ensures k in RoundStatus(keys, skip, works) <==> k in keys
    ensures k in keys ==> (RoundStatus(keys, skip, works)[k] == Delivered <==>
      k in skip || k in RoundSent(keys, skip, works))
    ensures multiset(RoundSent(keys, skip, works))[k] <= 1
    ensures k in RoundSent(keys, skip, works) ==> k in keys && k !in skip
    ensures !RoundFails(keys, skip, works) && k in keys ==> RoundStatus(keys, skip, works)[k] == Delivered
  {
    StatusFacts(keys, skip, works, k);
    SentFacts(keys, skip, works, k);
    if !RoundFails(keys, skip, works) {
      NoFailureFacts(keys, skip, works, k);
    }
  }

  /** How often a channel was successfully sent to from `a` up to but not including `j`. */
  function SendCount(h: seq<Evaluation>, a: nat, j: nat, k: string): nat
    requires a <= j <= |h|
  {
    if a == j then 0 else SendCount(h, a, j - 1, k) + multiset(h[j - 1].sent)[k]
  }

  /** The rule does not change during the episode, its channels are distinct, and the
      notification pipeline did not break down. */
  ghost predicate Undisturbed(h: seq<Evaluation>, rules: seq<seq<string>>, a: nat, j: nat, keys: seq<string>)
    requires a <= j < |h| && |rules| == |h|
  {
    NoDup(keys) && Steady(h, rules, a, j, keys)
  }

  ghost predicate Steady(h: seq<Evaluation>, rules: seq<seq<string>>, a: nat, j: nat, keys: seq<string>)
    requires a <= j < |h| && |rules| == |h|
  {
    forall i :: a <= i <= j ==> rules[i] == keys && !Backstop(h[i])
  }

  lemma SkipIsPrevious(h: seq<Evaluation>, rules: seq<seq<string>>, a: nat, j: nat)
    requires History(h, rules) && Episode(h, a, j) && Attempted(h[j])
    ensures SkipSet(h[..j], h[j].state) == if j == a then {} else DeliveredOn(h[j - 1])
  {
    LegalAttempt(h, rules, j);
    if j > a {
      assert h[..j][|h[..j]| - 1] == h[j - 1];
    }
  }

  lemma AttemptIsRound(h: seq<Evaluation>, rules: seq<seq<string>>, j: nat) returns (works: seq<bool>)
    requires History(h, rules) && j < |h| && Attempted(h[j]) && !Backstop(h[j])
    ensures RoundOf(h[j], rules[j], SkipSet(h[..j], h[j].state), works)
  {
    assert Legal(h[..j], h[j], rules[j]);
    works :| RoundOf(h[j], rules[j], SkipSet(h[..j], h[j].state), works);
  }

  /** Only the rule's channels are ever marked. */
  lemma DeliveredAreKeys(h: seq<Evaluation>, rules: seq<seq<string>>, j: nat, k: string)
    requires History(h, rules) && j < |h| && Attempted(h[j]) && !Backstop(h[j]) && NoDup(rules[j])
    ensures k in DeliveredOn(h[j]) ==> k in rules[j]
  {
    var works := AttemptIsRound(h, rules, j);
    RoundFacts(rules[j], SkipSet(h[..j], h[j].state), works, k);
  }

  /** Delivered before this evaluation within its episode. */
  ghost function DeliveredBefore(h: seq<Evaluation>, a: nat, j: nat): set<string>
    requires a <= j < |h|
  {
    if j == a then {} else DeliveredOn(h[j - 1])
  }

  /** One attempt: what it marks delivered is what was delivered before plus what it sends. */
  lemma AttemptDelivers(h: seq<Evaluation>, rules: seq<seq<string>>, a: nat, j: nat, keys: seq<string>, k: string)
    requires History(h, rules) && Episode(h, a, j) && Attempted(h[j])
    requires rules[j] == keys && NoDup(keys) && !Backstop(h[j])
    requires k in DeliveredBefore(h, a, j) ==> k in keys
    ensures k in DeliveredOn(h[j]) <==> k in DeliveredBefore(h, a, j) || k in h[j].sent
    ensures multiset(h[j].sent)[k] <= 1
    ensures k in h[j].sent ==> k !in DeliveredBefore(h, a, j)
    ensures h[j].status == Some(Delivered) && k in keys ==> k in DeliveredOn(h[j])
  {
    var works := AttemptIsRound(h, rules, j);
    SkipIsPrevious(h, rules, a, j);
    RoundFacts(keys, DeliveredBefore(h, a, j), works, k);
  }

  lemma UndisturbedBefore(h: seq<Evaluation>, rules: seq<seq<string>>, a: nat, j: nat, keys: seq<string>, k: string)
    requires History(h, rules) && Episode(h, a, j) && Undisturbed(h, rules, a, j, keys) && Attempted(h[j])
    ensures rules[j] == keys && !Backstop(h[j])
    ensures j > a ==> Attempted(h[j - 1])
    ensures k in DeliveredBefore(h, a, j) ==> k in keys
  {
    if j > a {
      AttemptsArePrefix(h, rules, a, j - 1, j);
      DeliveredAreKeys(h, rules, j - 1, k);
    }
  }

  lemma NotAttemptedSendsNothing(h: seq<Evaluation>, rules: seq<seq<string>>, j: nat)
    requires History(h, rules) && j < |h| && !Attempted(h[j])
    ensures h[j].sent == []
  {
    assert Legal(h[..j], h[j], rules[j]);
  }

  lemma EpisodeBefore(h: seq<Evaluation>, rules: seq<seq<string>>, a: nat, j: nat, keys: seq<string>)
    requires Episode(h, a, j) && j > a && |rules| == |h|
    ensures Episode(h, a, j - 1)
    ensures Undisturbed(h, rules, a, j, keys) ==> Undisturbed(h, rules, a, j - 1, keys)
  {
  }

  lemma AttemptCounts(h: seq<Evaluation>, rules: seq<seq<string>>, a: nat, j: nat, keys: seq<string>, k: string)
    requires History(h, rules) && Episode(h, a, j) && Undisturbed(h, rules, a, j, keys) && Attempted(h[j])
    requires k in DeliveredBefore(h, a, j) <==> SendCount(h, a, j, k) == 1
    requires SendCount(h, a, j, k) <= 1
    ensures SendCount(h, a, j, k) + multiset(h[j].sent)[k] <= 1
    ensures k in DeliveredOn(h[j]) <==> SendCount(h, a, j, k) + multiset(h[j].sent)[k] == 1
  {
    UndisturbedBefore(h, rules, a, j, keys, k);
    AttemptDelivers(h, rules, a, j, keys, k);
    CountConcat([], h[j].sent, k);
  }

  /** No channel is successfully sent to twice in an episode, and after an attempt the delivered
      channels are exactly those sent to so far in the episode. */
  lemma {:induction false} SentAtMostOnce(h: seq<Evaluation>, rules: seq<seq<string>>, a: nat, j: nat,
                                          keys: seq<string>, k: string)
    requires History(h, rules) && Episode(h, a, j) && Undisturbed(h, rules, a, j, keys)
    ensures SendCount(h, a, j + 1, k) <= 1
    ensures Attempted(h[j]) ==> (k in DeliveredOn(h[j]) <==> SendCount(h, a, j + 1, k) == 1)
    decreases j
  {
    assert SendCount(h, a, j + 1, k) == SendCount(h, a, j, k) + multiset(h[j].sent)[k];
    if j > a {
      EpisodeBefore(h, rules, a, j, keys);
      SentAtMostOnce(h, rules, a, j - 1, keys, k);
    }
    if Attempted(h[j]) {
      UndisturbedBefore(h, rules, a, j, keys, k);
      AttemptCounts(h, rules, a, j, keys, k);
    } else {
      NotAttemptedSendsNothing(h, rules, j);
    }
  }

  /** The set of delivered channels only grows during an episode. */
  lemma DeliveredOnlyGrows(h: seq<Evaluation>, rules: seq<seq<string>>, a: nat, j: nat, keys: seq<string>, k: string)
    requires History(h, rules) && Episode(h, a, j) && j > a && Undisturbed(h, rules, a, j, keys)
    requires Attempted(h[j]) && k in DeliveredOn(h[j - 1])
    ensures k in DeliveredOn(h[j]) && k !in h[j].sent
  {
    UndisturbedBefore(h, rules, a, j, keys, k);
    AttemptDelivers(h, rules, a, j, keys, k);
  }

  /** A row marked "delivered" means that every channel was sent to exactly once in the episode. */
  lemma DeliveredMeansOnceEach(h: seq<Evaluation>, rules: seq<seq<string>>, a: nat, j: nat, keys: seq<string>,
                               k: string)
    requires History(h, rules) && Episode(h, a, j) && Undisturbed(h, rules, a, j, keys)
    requires h[j].status == Some(Delivered) && k in keys
    ensures SendCount(h, a, j + 1, k) == 1
  {
    SentAtMostOnce(h, rules, a, j, keys, k);
    UndisturbedBefore(h, rules, a, j, keys, k);
    AttemptDelivers(h, rules, a, j, keys, k);
  }

  /** An episode of a rule with these channels that does not change, without a breakdown. */
  ghost predicate EpisodeOf(h: seq<Evaluation>, rules: seq<seq<string>>, a: nat, j: nat, keys: seq<string>) {
    History(h, rules) && Episode(h, a, j) && Steady(h, rules, a, j, keys)
  }

  /** In no episode is a channel successfully sent to twice. */
  ghost predicate OncePerChannel(keys: seq<string>) {
    forall h, rules, a: nat, j: nat, k :: !SentTwice(h, rules, a, j, keys, k)
  }

  ghost predicate SentTwice(h: seq<Evaluation>, rules: seq<seq<string>>, a: nat, j: nat, keys: seq<string>, k: string) {
    EpisodeOf(h, rules, a, j, keys) && SendCount(h, a, j + 1, k) > 1
  }

  /** That holds of exactly the rules that list each channel once. */
  lemma OncePerChannelIff(keys: seq<string>)
    ensures OncePerChannel(keys) <==> NoDup(keys)
  {
    if NoDup(keys) {
      forall h, rules, a: nat, j: nat, k
        ensures !SentTwice(h, rules, a, j, keys, k)
      {
        if EpisodeOf(h, rules, a, j, keys) { SentAtMostOnce(h, rules, a, j, keys, k); }
      }
    } else {
      var h, rules, k := DuplicateChannelSentTwice(keys);
      assert SentTwice(h, rules, 0, 0, keys, k);
    }
  }

  /** A rule that lists a channel twice sends to it twice in the very first round that works. */
  lemma DuplicateChannelSentTwice(keys: seq<string>) returns (h: seq<Evaluation>, rules: seq<seq<string>>, k: string)
    requires !NoDup(keys)
    ensures EpisodeOf(h, rules, 0, 0, keys) && SendCount(h, 0, 1, k) >= 2
  {
    var works := seq(|keys|, _ => true);
    var e := Evaluation(0, 0, Firing, true, Some(Delivered), Some(RoundStatus(keys, {}, works)), keys);
    AllSent(keys, works);
    FirstRound(e, keys, works);
    h, rules := [e], [keys];
    var i, j :| 0 <= i < j < |keys| && keys[i] == keys[j];
    k := keys[i];
    TwiceIn(keys, i, j);
    assert SendCount(h, 0, 1, k) == SendCount(h, 0, 0, k) + multiset(keys)[k];
  }

  lemma FirstRound(e: Evaluation, keys: seq<string>, works: seq<bool>)
    requires |works| == |keys| && RoundOf(e, keys, {}, works) && e.state == Firing && e.transitioned
    ensures EpisodeOf([e], [keys], 0, 0, keys)
  {
    var h := [e];
    assert h[..0] == [] && SkipSet([], Firing) == {};
    assert Legal(h[..0], h[0], keys);
  }

  lemma {:induction false} AllSent(keys: seq<string>, works: seq<bool>)
    requires |works| == |keys| && forall i :: 0 <= i < |works| ==> works[i]
    ensures RoundSent(keys, {}, works) == keys && !RoundFails(keys, {}, works)
  {
    if keys != [] {
      var n := |keys| - 1;
      AllSent(keys[..n], works[..n]);
      assert keys == keys[..n] + [keys[n]];
    }
  }
}
