/** Backup rotation (deploy/backup/retention.py): a daily window plus the newest archive of
    each of the most recent older ISO weeks. */
module BackupRetention {
  import opened Seqs

  /** An archive name `YYYYMMDD-HHMMSS.tar.gz.age` stands for exactly one instant, given here
      in microseconds since 1970-01-01. `BadStamp` has the right digits but names no date, and
      `strptime` raises on it; `Other` does not match the naming pattern. */
  datatype FileName = Archive(stamp: int) | BadStamp(text: string) | Other(text: string)

  datatype Result<T> = Success(value: T) | ValueError

  const DAY: int := 86_400_000_000

  /** The ISO 8601 week (section 4.1.4) as a running number: weeks start on Monday and
      1970-01-01 was a Thursday. Two instants have the same (year, week) pair exactly when
      they have the same number. */
  function IsoWeek(stamp: int): int {
    (stamp / DAY + 3) / 7
  }

  /** The number is the same all day long, and one more the next day if and only if that is a Monday:
      day 0 was a Thursday, so the days before a Monday are those that leave 3 modulo 7. */
  lemma WeeksChangeOnMondays(stamp: int, sameDay: int)
    requires sameDay / 86_400_000_000 == stamp / 86_400_000_000
    ensures IsoWeek(sameDay) == IsoWeek(stamp)
    ensures IsoWeek(stamp + 86_400_000_000) == IsoWeek(stamp) + if (stamp / 86_400_000_000) % 7 == 3 then 1 else 0
  {
    var d := stamp / 86_400_000_000;
    assert (stamp + 86_400_000_000) / 86_400_000_000 == d + 1;
    assert DAY == 86_400_000_000;
  }

  /** `daily_count`, `weekly_count` and the week numbering; the proofs only need the numbering
      to follow the dates. */
  datatype Policy = Policy(daily: int, weekly: int, week: int -> int)

  function IsoPolicy(daily: int, weekly: int): Policy {
    Policy(daily, weekly, IsoWeek)
  }

  predicate InOrder(a: int, b: int) { a <= b }

  ghost predicate WeeksFollowDates(p: Policy) {
    forall a, b {:trigger InOrder(a, b)} :: InOrder(a, b) ==> p.week(a) <= p.week(b)
  }

  lemma IsoWeeksFollowDates(daily: int, weekly: int)
    ensures WeeksFollowDates(IsoPolicy(daily, weekly))
  {
    forall a: int, b: int | a <= b
      ensures IsoWeek(a) <= IsoWeek(b)
    {
      assert a / DAY <= b / DAY;
    }
  }

  function Cutoff(now: int, p: Policy): int {
    now - p.daily * DAY
  }

  // ---------------------------------------------------------------- what rotation means

  /** Weeks that hold an archive outside the daily window. */
  ghost function OlderWeeks(all: set<int>, now: int, p: Policy): set<int> {
    set e | e in all && e < Cutoff(now, p) :: p.week(e)
  }

  ghost function Later(w: int, weeks: set<int>): set<int> {
    set v | v in weeks && v > w
  }

  ghost predicate NewestOfItsWeek(d: int, all: set<int>, now: int, p: Policy) {
    forall e :: e in all && e < Cutoff(now, p) && p.week(e) == p.week(d) ==> e <= d
  }

  /** Declarative retention: in the daily window, or the newest of one of the `weekly` most
      recent weeks that are outside it. */
  ghost predicate Kept(d: int, all: set<int>, now: int, p: Policy) {
    && d in all
    && (d >= Cutoff(now, p) ||
        (NewestOfItsWeek(d, all, now, p) && |Later(p.week(d), OlderWeeks(all, now, p))| < p.weekly))
  }

  ghost function Survivors(all: set<int>, now: int, p: Policy): set<int> {
    set d | d in all && Kept(d, all, now, p)
  }

  function Stamps(names: seq<FileName>): set<int> {
    set f | f in names && f.Archive? :: f.stamp
  }

  /** The archives of a listing, most recent first. */
  function Dated(names: seq<FileName>): (r: seq<FileName>)
    ensures forall f :: f in r <==> f in names && f.Archive?
    ensures NewestFirst(r)
  {
    var key := (f: FileName) => if f.Archive? then -f.stamp else 0;
    var r := SortBy(Filter(names, (f: FileName) => f.Archive?), key);
    assert forall f :: f in r ==> f.Archive?;
    assert forall i, j :: 0 <= i < j < |r| ==> key(r[i]) <= key(r[j]);
    r
  }

  // ---------------------------------------------------------------- the selection

  method SelectFilesToDelete(filenames: seq<FileName>, now: int, dailyCount: int := 7, weeklyCount: int := 4)
    returns (r: Result<seq<FileName>>)
    ensures r.ValueError? <==> exists f :: f in filenames && f.BadStamp?
    // an archive is returned exactly when the policy does not keep it, most recent first
    ensures r.Success? ==> forall f :: f in r.value <==>
      f in filenames && f.Archive? && !Kept(f.stamp, Stamps(filenames), now, IsoPolicy(dailyCount, weeklyCount))
    ensures r.Success? ==> NewestFirst(r.value)
    // deleting the answer leaves the survivors
    ensures r.Success? ==>
      Stamps(filenames) - Stamps(r.value) == Survivors(Stamps(filenames), now, IsoPolicy(dailyCount, weeklyCount))
    // on the instants: nothing of the last days is returned, and few older archives stay
    ensures r.Success? ==> forall f :: f in r.value ==> f.Archive? && f.stamp < now - dailyCount * 86_400_000_000
    ensures r.Success? ==>
      |OlderKept(filenames, r.value, now - dailyCount * 86_400_000_000)| <= if weeklyCount < 0 then 0 else weeklyCount
  {
    var p := IsoPolicy(dailyCount, weeklyCount);
    IsoWeeksFollowDates(dailyCount, weeklyCount);
    for i := 0 to |filenames|
      invariant forall k :: 0 <= k < i ==> !filenames[k].BadStamp?
    {
      if filenames[i].BadStamp? {
        return ValueError;
      }
    }
    var dated := Dated(filenames);
    ghost var all := Stamps(filenames);
    var keep, older := SplitDaily(dated, Cutoff(now, p));
    assert OlderListing(older, all, now, p) by {
      assert forall d :: d in all <==> Archive(d) in dated;
    }
    var seenWeeks := PickWeekly(older, all, now, p);
    keep := keep + seenWeeks.Values;
    forall f | f in dated
      ensures f in keep <==> Kept(f.stamp, all, now, p)
    {
      if f.stamp < Cutoff(now, p) {
        assert f in older;
        InValues(seenWeeks, p, f);
      } else if f in seenWeeks.Values {
        InValues(seenWeeks, p, f);
      }
    }
    var drop := Filter(dated, f => f !in keep);
    FilterKeepsOrder(dated, f => f !in keep);
    forall d | d in all
      ensures d in Stamps(drop) <==> !Kept(d, all, now, p)
    {
      assert Archive(d) in dated;
      if d in Stamps(drop) {
        var g :| g in drop && g.Archive? && g.stamp == d;
        assert g == Archive(d);
      }
    }
    r := Success(drop);
    OnTheInstants(filenames, drop, now, dailyCount, weeklyCount);
  }

  lemma OnTheInstants(names: seq<FileName>, deleted: seq<FileName>, now: int, daily: int, weekly: int)
    requires forall f :: f in deleted <==>
      f in names && f.Archive? && !Kept(f.stamp, Stamps(names), now, IsoPolicy(daily, weekly))
    ensures forall f :: f in deleted ==> f.Archive? && f.stamp < now - daily * 86_400_000_000
    ensures |OlderKept(names, deleted, now - daily * 86_400_000_000)| <= if weekly < 0 then 0 else weekly
  {
    CutoffIs(now, daily, weekly);
    FewKept(OlderKept(names, deleted, now - daily * 86_400_000_000), Stamps(names), now, IsoPolicy(daily, weekly));
  }

  lemma CutoffIs(now: int, daily: int, weekly: int)
    ensures Cutoff(now, IsoPolicy(daily, weekly)) == now - daily * 86_400_000_000
    ensures IsoPolicy(daily, weekly).weekly == weekly
  {
  }

  /** The archives before an instant that are not deleted. */
  ghost function OlderKept(names: seq<FileName>, deleted: seq<FileName>, instant: int): set<FileName> {
    set f | f in names && f.Archive? && f.stamp < instant && f !in deleted
  }

  /** At most `weekly` archives outside the daily window are kept: one in a week, and the earliest has
      fewer than `weekly` weeks after it. */
  lemma FewKept(kept: set<FileName>, all: set<int>, now: int, p: Policy)
    requires forall f :: f in kept ==> f.Archive? && f.stamp < Cutoff(now, p) && Kept(f.stamp, all, now, p)
    ensures |kept| <= if p.weekly < 0 then 0 else p.weekly
  {
    if kept != {} {
      var first := Earliest(kept, p);
      var w := p.week(first.stamp);
      var later := Later(w, OlderWeeks(all, now, p));
      forall f | f in kept - {first}
        ensures p.week(f.stamp) in later
      {
        OlderWeek(all, now, p, f.stamp);
        OnePerWeek(f, first, all, now, p);
      }
      OneInAWeek(kept - {first}, later, all, now, p);
    }
  }

  lemma OnePerWeek(f: FileName, g: FileName, all: set<int>, now: int, p: Policy)
    requires f.Archive? && f.stamp < Cutoff(now, p) && Kept(f.stamp, all, now, p)
    requires g.Archive? && g.stamp < Cutoff(now, p) && Kept(g.stamp, all, now, p)
    ensures f != g ==> p.week(f.stamp) != p.week(g.stamp)
  {
  }

  lemma {:induction false} Earliest(kept: set<FileName>, p: Policy) returns (first: FileName)
    requires kept != {} && forall f :: f in kept ==> f.Archive?
    ensures first in kept && forall f :: f in kept ==> p.week(first.stamp) <= p.week(f.stamp)
  {
    first := PickOne(kept);
    if kept != {first} {
      var other := Earliest(kept - {first}, p);
      if p.week(other.stamp) < p.week(first.stamp) { first := other; }
    }
  }

  lemma {:induction false} OneInAWeek(kept: set<FileName>, weeks: set<int>, all: set<int>, now: int, p: Policy)
    requires forall f :: f in kept ==> f.Archive? && f.stamp < Cutoff(now, p) && Kept(f.stamp, all, now, p)
    requires forall f :: f in kept ==> p.week(f.stamp) in weeks
    ensures |kept| <= |weeks|
  {
    if kept != {} {
      var f := PickOne(kept);
      forall g | g in kept - {f}
        ensures p.week(g.stamp) in weeks - {p.week(f.stamp)}
      {
        OnePerWeek(g, f, all, now, p);
      }
      OneInAWeek(kept - {f}, weeks - {p.week(f.stamp)}, all, now, p);
    }
  }

  /** What stays, on the instants: the archives of the last days, and of the older ones the newest of its
      week when fewer than `weekly` later weeks hold an older archive. */
  lemma KeptHolds(d: int, all: set<int>, now: int, daily: int, weekly: int)
    ensures
      var instant := now - daily * 86_400_000_000;
      Kept(d, all, now, IsoPolicy(daily, weekly)) <==>
        d in all && (d >= instant ||
          ((forall e :: e in all && e < instant && IsoWeek(e) == IsoWeek(d) ==> e <= d) &&
           |WeeksAfter(all, instant, IsoWeek(d))| < weekly))
  {
    CutoffIs(now, daily, weekly);
    var p := IsoPolicy(daily, weekly);
    assert WeeksAfter(all, Cutoff(now, p), IsoWeek(d)) == Later(IsoWeek(d), OlderWeeks(all, now, p));
  }

  /** Weeks after `w` that hold an archive from before an instant. */
  ghost function WeeksAfter(all: set<int>, instant: int, w: int): set<int> {
    set e | e in all && e < instant && IsoWeek(e) > w :: IsoWeek(e)
  }

  /** The first loop: the daily window is kept, the rest is examined week by week. */
  method SplitDaily(dated: seq<FileName>, cutoff: int) returns (keep: set<FileName>, older: seq<FileName>)
    requires NewestFirst(dated)
    ensures forall f :: f in keep <==> f in dated && f.stamp >= cutoff
    ensures forall f :: f in older <==> f in dated && f.stamp < cutoff
    ensures NewestFirst(older)
  {
    keep, older := {}, [];
    for i := 0 to |dated|
      invariant forall f :: f in keep <==> f in dated[..i] && f.stamp >= cutoff
      invariant forall f :: f in older <==> f in dated[..i] && f.stamp < cutoff
      invariant NewestFirst(older)
    {
      if dated[i].stamp >= cutoff {
        keep := keep + {dated[i]};
      } else {
        forall k | 0 <= k < |older|
          ensures older[k].stamp >= dated[i].stamp
        {
          assert older[k] in older;
        }
        older := older + [dated[i]];
      }
    }
    assert dated[..|dated|] == dated;
  }

  /** The second loop: the first archive met for a new week is recorded while there is room. */
  method PickWeekly(older: seq<FileName>, ghost all: set<int>, now: int, p: Policy)
    returns (seenWeeks: map<int, FileName>)
    requires WeeksFollowDates(p) && OlderListing(older, all, now, p)
    ensures forall w :: w in seenWeeks ==> seenWeeks[w].Archive? && p.week(seenWeeks[w].stamp) == w
    ensures forall f :: f in older ==> (Kept(f.stamp, all, now, p) <==> Recorded(f, seenWeeks, p))
  {
    seenWeeks := map[];
    for i := 0 to |older|
      invariant PickedSoFar(older, i, seenWeeks, all, now, p)
    {
      var week := p.week(older[i].stamp);
      if week !in seenWeeks && |seenWeeks| < p.weekly {
        FirstOfAKeptWeek(older, i, all, now, p, seenWeeks);
        seenWeeks := seenWeeks[week := older[i]];
      } else if week !in seenWeeks {
        TooManyLaterWeeks(older, i, all, now, p, seenWeeks);
      } else {
        WeekAlreadySeen(older, i, all, now, p, seenWeeks);
      }
    }
  }

  ghost predicate NewestFirst(s: seq<FileName>) {
    && (forall f :: f in s ==> f.Archive?)
    && (forall i, j :: 0 <= i < j < |s| ==> s[i].stamp >= s[j].stamp)
  }

  predicate Recorded(f: FileName, seen: map<int, FileName>, p: Policy)
    requires f.Archive?
  {
    p.week(f.stamp) in seen && seen[p.week(f.stamp)] == f
  }

  lemma InValues(seen: map<int, FileName>, p: Policy, f: FileName)
    requires f.Archive?
    requires forall w :: w in seen ==> seen[w].Archive? && p.week(seen[w].stamp) == w
    ensures f in seen.Values <==> Recorded(f, seen, p)
  {
    if f in seen.Values {
      var w := KeyOf(seen, f);
    }
  }

  lemma {:induction false} FilterKeepsOrder(s: seq<FileName>, q: FileName -> bool)
    requires NewestFirst(s)
    ensures NewestFirst(Filter(s, q))
  {
    if s != [] {
      var init, last := s[..|s| - 1], s[|s| - 1];
      FilterKeepsOrder(init, q);
      var r := Filter(init, q);
      forall i | 0 <= i < |r|
        ensures r[i].stamp >= last.stamp
      {
        assert r[i] in r;
      }
      assert last in s;
      assert Filter(s, q) == r + if q(last) then [last] else [];
    }
  }

  /** `older` lists the part of `all` outside the daily window, newest first. */
  ghost predicate OlderListing(older: seq<FileName>, all: set<int>, now: int, p: Policy) {
    && NewestFirst(older)
    && (forall d :: Archive(d) in older <==> d in all && d < Cutoff(now, p))
  }

  ghost predicate PickedSoFar(older: seq<FileName>, i: nat, seen: map<int, FileName>,
                              all: set<int>, now: int, p: Policy)
    requires i <= |older| && NewestFirst(older)
  {
    && (forall w :: w in seen ==> EntryOf(w, seen[w], older, i, all, now, p))
    && (forall k :: 0 <= k < i ==> Decided(older[k], seen, all, now, p))
  }

  /** The archive is recorded exactly when it is kept, and its week had its chance. */
  ghost predicate Decided(f: FileName, seen: map<int, FileName>, all: set<int>, now: int, p: Policy)
    requires f.Archive?
  {
    && (p.week(f.stamp) in seen || |seen| >= p.weekly)
    && (Kept(f.stamp, all, now, p) <==> Recorded(f, seen, p))
  }

  /** A recorded archive is kept on behalf of its week and comes before what is left. */
  ghost predicate EntryOf(w: int, f: FileName, older: seq<FileName>, i: nat, all: set<int>, now: int, p: Policy)
    requires i <= |older| && NewestFirst(older)
  {
    && f.Archive? && p.week(f.stamp) == w
    && f.stamp < Cutoff(now, p) && Kept(f.stamp, all, now, p)
    && forall k :: i <= k < |older| ==> older[k].stamp <= f.stamp
  }

  /** The archive at an index of the listing, as a member of `all`. */
  lemma ListedAt(older: seq<FileName>, i: nat, all: set<int>, now: int, p: Policy)
    requires i < |older| && OlderListing(older, all, now, p)
    ensures older[i].Archive? && older[i].stamp in all && older[i].stamp < Cutoff(now, p)
  {
    assert older[i] in older && Archive(older[i].stamp) == older[i];
  }

  lemma WeekAlreadySeen(older: seq<FileName>, i: nat, all: set<int>, now: int, p: Policy,
                        seen: map<int, FileName>)
    requires i < |older| && OlderListing(older, all, now, p) && PickedSoFar(older, i, seen, all, now, p)
    requires p.week(older[i].stamp) in seen
    ensures PickedSoFar(older, i + 1, seen, all, now, p)
  {
    ListedAt(older, i, all, now, p);
    var w := p.week(older[i].stamp);
    assert EntryOf(w, seen[w], older, i, all, now, p);
    assert Decided(older[i], seen, all, now, p);
    EntriesStay(older, i, seen, all, now, p);
  }

  /** One archive further on, the recorded ones still come first. */
  lemma EntriesStay(older: seq<FileName>, i: nat, seen: map<int, FileName>, all: set<int>, now: int, p: Policy)
    requires i < |older| && NewestFirst(older)
    requires forall w :: w in seen ==> EntryOf(w, seen[w], older, i, all, now, p)
    ensures forall w :: w in seen ==> EntryOf(w, seen[w], older, i + 1, all, now, p)
  {
  }

  lemma OlderWeek(all: set<int>, now: int, p: Policy, e: int)
    requires e in all && e < Cutoff(now, p)
    ensures p.week(e) in OlderWeeks(all, now, p)
  {
  }

  /** Weeks after the one examined all have an archive earlier in the listing. */
  lemma LaterWeeksComeFirst(older: seq<FileName>, i: nat, all: set<int>, now: int, p: Policy, w: int)
    returns (k: nat)
    requires i < |older| && OlderListing(older, all, now, p) && WeeksFollowDates(p)
    requires older[i].Archive? && w in Later(p.week(older[i].stamp), OlderWeeks(all, now, p))
    ensures k < i && older[k].Archive? && p.week(older[k].stamp) == w
  {
    var e :| e in all && e < Cutoff(now, p) && p.week(e) == w;
    var k' :| 0 <= k' < |older| && older[k'] == Archive(e);
    k := k';
    assert InOrder(e, older[i].stamp) || k < i;
  }

  /** The first archive met for its week is kept while fewer than `weekly` weeks came before. */
  lemma FirstIsKept(older: seq<FileName>, i: nat, all: set<int>, now: int, p: Policy, weeks: set<int>)
    requires i < |older| && OlderListing(older, all, now, p) && WeeksFollowDates(p)
    requires forall k :: 0 <= k < i ==> p.week(older[k].stamp) in weeks
    requires older[i].Archive? && p.week(older[i].stamp) !in weeks && |weeks| < p.weekly
    ensures Kept(older[i].stamp, all, now, p)
  {
    ListedAt(older, i, all, now, p);
    var d := older[i].stamp;
    var later := Later(p.week(d), OlderWeeks(all, now, p));
    forall w | w in later
      ensures w in weeks
    {
      var k := LaterWeeksComeFirst(older, i, all, now, p, w);
    }
    SubsetCardinality(later, weeks);
    forall e | e in all && e < Cutoff(now, p) && p.week(e) == p.week(d)
      ensures e <= d
    {
      var k :| 0 <= k < |older| && older[k] == Archive(e);
      assert k >= i;
    }
  }

  lemma FirstOfAKeptWeek(older: seq<FileName>, i: nat, all: set<int>, now: int, p: Policy,
                         seen: map<int, FileName>)
    requires i < |older| && OlderListing(older, all, now, p) && PickedSoFar(older, i, seen, all, now, p)
    requires p.week(older[i].stamp) !in seen && |seen| < p.weekly && WeeksFollowDates(p)
    ensures PickedSoFar(older, i + 1, seen[p.week(older[i].stamp) := older[i]], all, now, p)
  {
    ListedAt(older, i, all, now, p);
    FirstIsKept(older, i, all, now, p, seen.Keys);
    var w := p.week(older[i].stamp);
    EntriesStay(older, i, seen, all, now, p);
    assert EntryOf(w, older[i], older, i + 1, all, now, p);
    var seen' := seen[w := older[i]];
    forall k | 0 <= k < i + 1
      ensures Decided(older[k], seen', all, now, p)
    {
      if k < i {
        assert Decided(older[k], seen, all, now, p);
        var v := p.week(older[k].stamp);
        assert v in seen && v != w && seen'[v] == seen[v];
      }
    }
  }

  /** With `weekly` later weeks already recorded, an archive of a further week is not kept. */
  lemma LateIsDropped(d: int, all: set<int>, now: int, p: Policy, weeks: set<int>)
    requires d < Cutoff(now, p) && |weeks| >= p.weekly
    requires forall w :: w in weeks ==> w in OlderWeeks(all, now, p) && w > p.week(d)
    ensures !Kept(d, all, now, p)
  {
    forall w | w in weeks
      ensures w in Later(p.week(d), OlderWeeks(all, now, p))
    {
    }
    SubsetCardinality(weeks, Later(p.week(d), OlderWeeks(all, now, p)));
  }

  /** A week recorded so far is later than that of an archive examined now, unless it is its own. */
  lemma SeenWeekIsLater(older: seq<FileName>, i: nat, all: set<int>, now: int, p: Policy, w: int, f: FileName)
    requires i < |older| && OlderListing(older, all, now, p) && WeeksFollowDates(p)
    requires EntryOf(w, f, older, i, all, now, p) && p.week(older[i].stamp) != w
    ensures w in OlderWeeks(all, now, p) && w > p.week(older[i].stamp)
  {
    OlderWeek(all, now, p, f.stamp);
    assert InOrder(older[i].stamp, f.stamp);
  }

  lemma TooManyLaterWeeks(older: seq<FileName>, i: nat, all: set<int>, now: int, p: Policy,
                          seen: map<int, FileName>)
    requires i < |older| && OlderListing(older, all, now, p) && PickedSoFar(older, i, seen, all, now, p)
    requires p.week(older[i].stamp) !in seen && |seen| >= p.weekly && WeeksFollowDates(p)
    ensures PickedSoFar(older, i + 1, seen, all, now, p)
  {
    NotKeptNow(older, i, all, now, p, seen);
    EntriesStay(older, i, seen, all, now, p);
    assert Decided(older[i], seen, all, now, p);
  }

  lemma NotKeptNow(older: seq<FileName>, i: nat, all: set<int>, now: int, p: Policy, seen: map<int, FileName>)
    requires i < |older| && OlderListing(older, all, now, p) && WeeksFollowDates(p)
    requires forall w :: w in seen ==> EntryOf(w, seen[w], older, i, all, now, p)
    requires p.week(older[i].stamp) !in seen && |seen| >= p.weekly
    ensures !Kept(older[i].stamp, all, now, p)
  {
    ListedAt(older, i, all, now, p);
    var weeks := seen.Keys;
    forall w | w in weeks
      ensures w in OlderWeeks(all, now, p) && w > p.week(older[i].stamp)
    {
      SeenWeekIsLater(older, i, all, now, p, w, seen[w]);
    }
    LateIsDropped(older[i].stamp, all, now, p, weeks);
  }

  // ---------------------------------------------------------------- repeated rotation

  /** What one run drops, no later run would have kept, whatever archives were added. */
  lemma DroppedStaysDropped(all: set<int>, more: set<int>, now: int, later: int, p: Policy, d: int)
    requires now <= later && all <= more
    requires d in all && !Kept(d, all, now, p)
    ensures !Kept(d, more, later, p)
  {
    if NewestOfItsWeek(d, all, now, p) {
      SubsetCardinality(Later(p.week(d), OlderWeeks(all, now, p)), Later(p.week(d), OlderWeeks(more, later, p)));
    }
  }

  /** The newest archive of a week outside the daily window. */
  lemma NewestIn(w: int, all: set<int>, now: int, p: Policy) returns (m: int)
    requires w in OlderWeeks(all, now, p)
    ensures m in all && m < Cutoff(now, p) && p.week(m) == w && NewestOfItsWeek(m, all, now, p)
  {
    var e :| e in all && e < Cutoff(now, p) && p.week(e) == w;
    var week := set e | e in all && e < Cutoff(now, p) && p.week(e) == w;
    assert e in week;
    m := MaxOf(week);
    assert forall e :: e in all && e < Cutoff(now, p) && p.week(e) == w ==> e in week;
  }

  /** If every week of `before` missing from `after` had `n` weeks of `before` after it, then
      a week followed by `n` weeks of `before` is still followed by `n` weeks of `after`. */
  lemma QuotaStillFull(before: set<int>, after: set<int>, n: int, w: int)
    requires forall v :: v in before && v !in after ==> |Later(v, before)| >= n
    requires |Later(w, before)| >= n
    ensures |Later(w, after)| >= n
  {
    var lost := Later(w, before) - after;
    if lost == {} {
      assert forall v :: v in Later(w, before) ==> v !in lost;
      assert Later(w, before) <= Later(w, after);
      SubsetCardinality(Later(w, before), Later(w, after));
    } else {
      var top := MaxOf(lost);
      assert forall v :: v in Later(top, before) ==> v in Later(w, before) && v !in lost;
      assert Later(top, before) <= Later(w, after);
      SubsetCardinality(Later(top, before), Later(w, after));
    }
  }

  /** A week that disappears with the archives that are not kept had a full quota after it. */
  lemma LostWeeks(all: set<int>, part: set<int>, now: int, p: Policy)
    requires part <= all && Survivors(all, now, p) <= part
    ensures forall w :: w in OlderWeeks(all, now, p) && w !in OlderWeeks(part, now, p) ==>
      |Later(w, OlderWeeks(all, now, p))| >= p.weekly
  {
    forall w | w in OlderWeeks(all, now, p) && w !in OlderWeeks(part, now, p)
      ensures |Later(w, OlderWeeks(all, now, p))| >= p.weekly
    {
      var m := NewestIn(w, all, now, p);
      assert m !in part;
      assert !Kept(m, all, now, p);
    }
  }

  /** Only kept archives matter: without the others the same ones are kept. */
  lemma OnlySurvivorsMatter(all: set<int>, part: set<int>, now: int, p: Policy)
    requires part <= all && Survivors(all, now, p) <= part
    ensures Survivors(part, now, p) == Survivors(all, now, p)
  {
    forall d | d in part
      ensures Kept(d, part, now, p) <==> Kept(d, all, now, p)
    {
      if d < Cutoff(now, p) {
        OlderVerdictUnchanged(all, part, now, p, d);
      }
    }
    assert forall d :: d in Survivors(all, now, p) ==> d in part;
  }

  lemma OlderVerdictUnchanged(all: set<int>, part: set<int>, now: int, p: Policy, d: int)
    requires part <= all && Survivors(all, now, p) <= part
    requires d in part && d < Cutoff(now, p)
    ensures Kept(d, part, now, p) <==> Kept(d, all, now, p)
  {
    var w, before, after := p.week(d), OlderWeeks(all, now, p), OlderWeeks(part, now, p);
    if |Later(w, before)| >= p.weekly {
      LostWeeks(all, part, now, p);
      QuotaStillFull(before, after, p.weekly, w);
    } else {
      SubsetCardinality(Later(w, after), Later(w, before));
      OlderWeek(all, now, p, d);
      var m := NewestIn(w, all, now, p);
      assert Kept(m, all, now, p);
      assert m in Survivors(all, now, p);
    }
  }

  /** Rotating early and again later keeps what a single late rotation would have kept. */
  lemma IncrementalIsOneShot(all: set<int>, added: set<int>, now: int, later: int, p: Policy)
    requires now <= later
    ensures Survivors(Survivors(all, now, p) + added, later, p) == Survivors(all + added, later, p)
  {
    var part := Survivors(all, now, p) + added;
    forall d | d in Survivors(all + added, later, p)
      ensures d in part
    {
      if d in all && !Kept(d, all, now, p) {
        DroppedStaysDropped(all, all + added, now, later, p, d);
      }
    }
    OnlySurvivorsMatter(all + added, part, later, p);
  }

  /** One nightly run: archives made since the previous run, then a rotation. */
  datatype Night = Night(now: int, made: set<int>)

  ghost function AfterNights(nights: seq<Night>, p: Policy): set<int> {
    if nights == [] then {}
    else
      var last := nights[|nights| - 1];
      Survivors(AfterNights(nights[..|nights| - 1], p) + last.made, last.now, p)
  }

  ghost function EverMade(nights: seq<Night>): set<int> {
    if nights == [] then {}
    else EverMade(nights[..|nights| - 1]) + nights[|nights| - 1].made
  }

  /** Over any number of nights the disk holds what one final run on every archive ever made
      would keep. */
  lemma {:induction false} ManyNightsIsOneRun(nights: seq<Night>, p: Policy)
    requires nights != []
    requires forall i, j :: 0 <= i < j < |nights| ==> nights[i].now <= nights[j].now
    ensures AfterNights(nights, p) == Survivors(EverMade(nights), nights[|nights| - 1].now, p)
  {
    var init, last := nights[..|nights| - 1], nights[|nights| - 1];
    if init == [] {
      assert AfterNights(init, p) + last.made == EverMade(init) + last.made;
    } else {
      ManyNightsIsOneRun(init, p);
      IncrementalIsOneShot(EverMade(init), last.made, init[|init| - 1].now, last.now, p);
    }
  }

  /** Running again at the same time on what is left deletes nothing. */
  lemma RotationIdempotent(all: set<int>, now: int, p: Policy)
    ensures Survivors(Survivors(all, now, p), now, p) == Survivors(all, now, p)
  {
    OnlySurvivorsMatter(all, Survivors(all, now, p), now, p);
  }

  /** With a positive weekly quota the most recent archive of all is never dropped. */
  lemma NewestArchiveSurvives(all: set<int>, now: int, p: Policy, d: int)
    requires d in all && forall e :: e in all ==> e <= d
    requires p.weekly > 0 && WeeksFollowDates(p)
    ensures d in Survivors(all, now, p)
  {
    forall w | w in OlderWeeks(all, now, p)
      ensures w <= p.week(d)
    {
      var e :| e in all && e < Cutoff(now, p) && p.week(e) == w;
      assert InOrder(e, d);
    }
    assert Later(p.week(d), OlderWeeks(all, now, p)) == {};
  }
}
