// A scheduled job swept over every workspace, and the hour arithmetic that
// decides who is due (apps/web/lib/scheduler.ts).
module Scheduler {

  // ---- one sweep ----

  // A workspace and where its clock stands, in minutes ahead of UTC. An
  // unknown timezone reads as UTC.
  datatype Workspace = Workspace(id: string, offset: int)

  datatype Job = Job(hourly: bool, hour: int, instance: bool)

  // Minutes into the day and hours, for times on either side of the epoch.
  function LocalHour(offset: int, now: int): (h: int)
    ensures 0 <= h < 24
  {
    ((now + offset) % 1440) / 60
  }

  predicate Matches(job: Job, w: Workspace, now: int) { job.hourly || LocalHour(w.offset, now) == job.hour }

  datatype Outcome = Outcome(ran: nat, skipped: nat, failed: nat)

  // The workspaces a sweep tries, in order.
  function Due(job: Job, workspaces: seq<Workspace>, now: int): (r: seq<Workspace>)
    ensures forall w :: w in r <==> w in workspaces && Matches(job, w, now)
  {
    if workspaces == [] then []
    else (if Matches(job, workspaces[0], now) then [workspaces[0]] else []) + Due(job, workspaces[1..], now)
  }

  function Count(list: seq<Workspace>, failing: Workspace -> bool): nat {
    if list == [] then 0 else (if failing(list[0]) then 1 else 0) + Count(list[1..], failing)
  }

  lemma {:induction false} CountBound(list: seq<Workspace>, failing: Workspace -> bool)
    ensures Count(list, failing) <= |list|
  {
    if list != [] {
      CountBound(list[1..], failing);
    }
  }

  lemma {:induction false} DueSnoc(job: Job, list: seq<Workspace>, w: Workspace, now: int)
    ensures Due(job, list + [w], now) == Due(job, list, now) + if Matches(job, w, now) then [w] else []
  {
    if list == [] {
      assert (list + [w])[1..] == [];
    } else {
      assert (list + [w])[0] == list[0] && (list + [w])[1..] == list[1..] + [w];
      DueSnoc(job, list[1..], w, now);
    }
  }

  lemma {:induction false} CountSnoc(list: seq<Workspace>, w: Workspace, failing: Workspace -> bool)
    ensures Count(list + [w], failing) == Count(list, failing) + if failing(w) then 1 else 0
  {
    if list == [] {
      assert (list + [w])[1..] == [];
    } else {
      assert (list + [w])[0] == list[0] && (list + [w])[1..] == list[1..] + [w];
      CountSnoc(list[1..], w, failing);
    }
  }

  // The sweep. `failing` says whose run throws. Whatever fails, every workspace
  // whose hour it is has been tried once, in order, and every workspace is
  // counted once.
  method RunScheduledJob(job: Job, workspaces: seq<Workspace>, now: int, instanceFails: bool,
                         failing: Workspace -> bool)
    returns (outcome: Outcome, attempted: seq<Workspace>)
    ensures !job.instance ==> attempted == Due(job, workspaces, now)
    ensures !job.instance ==>
      && outcome.ran + outcome.skipped + outcome.failed == |workspaces|
      && outcome.skipped == |workspaces| - |attempted|
      && outcome.failed == Count(attempted, failing)
    ensures job.instance ==> attempted == [] && outcome == if instanceFails then Outcome(0, 0, 1) else Outcome(1, 0, 0)
  {
    var ran, skipped, failed := 0, 0, 0;
    var list := if job.instance then [] else workspaces;
    if job.instance {
      if instanceFails {
        failed := failed + 1;
      } else {
        ran := ran + 1;
      }
    }
    attempted := [];
    var i := 0;
    while i < |list|
      invariant 0 <= i <= |list|
      invariant attempted == Due(job, list[..i], now)
      invariant !job.instance ==>
          && ran + failed == |attempted| && failed == Count(attempted, failing) && skipped == i - |attempted|
      invariant job.instance ==>
          Outcome(ran, skipped, failed) == if instanceFails then Outcome(0, 0, 1) else Outcome(1, 0, 0)
      invariant job.instance ==> list == []
    {
      var w := list[i];
      assert list[..i + 1] == list[..i] + [w];
      DueSnoc(job, list[..i], w, now);
      i := i + 1;
      if !job.hourly && LocalHour(w.offset, now) != job.hour {
        skipped := skipped + 1;
        continue;
      }
      CountSnoc(attempted, w, failing);
      attempted := attempted + [w];
      if failing(w) {
        failed := failed + 1;
      } else {
        ran := ran + 1;
      }
    }
    assert list[..i] == list;
    outcome := Outcome(ran, skipped, failed);
  }

  // ---- a day of hourly sweeps ----

  // How many of the n hourly ticks from `start` find the local hour to be `hour`.
  function Hits(offset: int, start: int, n: nat, hour: int): nat {
    if n == 0 then 0
    else Hits(offset, start, n - 1, hour) + if LocalHour(offset, start + 60 * (n - 1)) == hour then 1 else 0
  }

  // An hour later the clock shows the next hour.
  lemma HourAfterHour(offset: int, now: int)
    ensures LocalHour(offset, now + 60) == (LocalHour(offset, now) + 1) % 24
  {
    var m := (now + offset) % 1440;
    assert (now + offset + 60) % 1440 == (m + 60) % 1440;
    if m + 60 < 1440 {
      assert (m + 60) / 60 == m / 60 + 1;
    } else {
      assert (m + 60) % 1440 == m + 60 - 1440;
      assert m / 60 == 23;
    }
  }

  lemma {:induction false} HourAfterHours(offset: int, now: int, k: nat)
    ensures LocalHour(offset, now + 60 * k) == (LocalHour(offset, now) + k) % 24
  {
    if k > 0 {
      HourAfterHours(offset, now, k - 1);
      HourAfterHour(offset, now + 60 * (k - 1));
    }
  }

  // The ticks before the hour comes round, as many as the clock is short of it.
  lemma {:induction false} HitsCount(offset: int, start: int, n: nat, hour: int)
    requires 0 <= hour < 24 && n <= 24
    ensures Hits(offset, start, n, hour) == if (hour - LocalHour(offset, start)) % 24 < n then 1 else 0
  {
    if n > 0 {
      HitsCount(offset, start, n - 1, hour);
      HourAfterHours(offset, start, n - 1);
      HoursShort(LocalHour(offset, start), n - 1, hour);
    }
  }

  // The clock is at the hour after as many hours as it is short of it.
  lemma HoursShort(h: int, k: nat, hour: int)
    requires 0 <= h < 24 && 0 <= hour < 24 && k < 24
    ensures (h + k) % 24 == hour <==> (hour - h) % 24 == k
  {
  }

  // Over any 24 hourly ticks the clock at a fixed offset, whatever its minutes,
  // shows the hour exactly once.
  lemma DueOnceADay(offset: int, start: int, hour: int)
    requires 0 <= hour < 24
    ensures Hits(offset, start, 24, hour) == 1
  {
    HitsCount(offset, start, 24, hour);
  }

  // How often a workspace was tried over a number of sweeps.
  function Times(tried: seq<seq<Workspace>>, w: Workspace): nat {
    if tried == [] then 0
    else Times(tried[..|tried| - 1], w) + multiset(tried[|tried| - 1])[w]
  }

  // What a sweep promises of the workspaces it tries, for the k-th of hourly
  // sweeps from `start` on over the lists of the day; `w` is there once.
  ghost predicate SweptAt(job: Job, lists: seq<seq<Workspace>>, tried: seq<seq<Workspace>>, w: Workspace, start: int,
                          k: int)
    requires |tried| == |lists| && 0 <= k < |lists|
  {
    tried[k] == Due(job, lists[k], start + 60 * k) && multiset(lists[k])[w] == 1
  }

  ghost predicate AreSweeps(job: Job, lists: seq<seq<Workspace>>, tried: seq<seq<Workspace>>, w: Workspace,
                            start: int) {
    |tried| == |lists| && forall k | 0 <= k < |lists| :: SweptAt(job, lists, tried, w, start, k)
  }

  lemma {:induction false} DueTimes(job: Job, list: seq<Workspace>, w: Workspace, now: int)
    ensures multiset(Due(job, list, now))[w] == if Matches(job, w, now) then multiset(list)[w] else 0
  {
    if list != [] {
      DueTimes(job, list[1..], w, now);
      assert list == [list[0]] + list[1..];
      assert multiset(list)[w] == (if list[0] == w then 1 else 0) + multiset(list[1..])[w];
    }
  }

  lemma {:induction false} TimesAreHits(job: Job, lists: seq<seq<Workspace>>, tried: seq<seq<Workspace>>, w: Workspace,
                                        start: int)
    requires AreSweeps(job, lists, tried, w, start)
    ensures Times(tried, w) == if job.hourly then |lists| else Hits(w.offset, start, |lists|, job.hour)
    decreases |lists|
  {
    if lists != [] {
      var n := |lists| - 1;
      SweepsBefore(job, lists, tried, w, start);
      TimesAreHits(job, lists[..n], tried[..n], w, start);
      LastSweep(job, lists, tried, w, start);
    }
  }

  lemma SweepsBefore(job: Job, lists: seq<seq<Workspace>>, tried: seq<seq<Workspace>>, w: Workspace, start: int)
    requires lists != [] && AreSweeps(job, lists, tried, w, start)
    ensures AreSweeps(job, lists[..|lists| - 1], tried[..|lists| - 1], w, start)
  {
    var ls, ts := lists[..|lists| - 1], tried[..|lists| - 1];
    forall k | 0 <= k < |ls| ensures SweptAt(job, ls, ts, w, start, k) {
      assert SweptAt(job, lists, tried, w, start, k);
    }
  }

  lemma LastSweep(job: Job, lists: seq<seq<Workspace>>, tried: seq<seq<Workspace>>, w: Workspace, start: int)
    requires lists != [] && AreSweeps(job, lists, tried, w, start)
    ensures Times(tried, w) == Times(tried[..|lists| - 1], w)
        + if Matches(job, w, start + 60 * (|lists| - 1)) then 1 else 0
  {
    var n := |lists| - 1;
    assert SweptAt(job, lists, tried, w, start, n);
    DueTimes(job, lists[n], w, start + 60 * n);
  }

  // Whichever runs fail, and whatever workspaces come and go, over 24 hourly
  // sweeps a job with an hour tries a workspace that is there all day exactly
  // once.
  lemma TriedOnceADay(job: Job, lists: seq<seq<Workspace>>, tried: seq<seq<Workspace>>, w: Workspace, start: int)
    requires AreSweeps(job, lists, tried, w, start) && |lists| == 24
    requires !job.hourly && 0 <= job.hour < 24
    ensures Times(tried, w) == 1
  {
    TimesAreHits(job, lists, tried, w, start);
    DueOnceADay(w.offset, start, job.hour);
  }

  // ---- a day in which the clocks change ----

  // Hits when the offset changes from one value to another after k ticks.
  function HitsAcross(before: int, after: int, start: int, k: nat, hour: int): nat
    requires k <= 24
  {
    Hits(before, start, k, hour) + Hits(after, start + 60 * k, 24 - k, hour)
  }

  // With one change of the clocks, by any amount, a workspace is due at most
  // twice that day.
  lemma DueAtMostTwice(before: int, after: int, start: int, k: nat, hour: int)
    requires 0 <= hour < 24 && k <= 24
    ensures HitsAcross(before, after, start, k, hour) <= 2
  {
    HitsCount(before, start, k, hour);
    HitsCount(after, start + 60 * k, 24 - k, hour);
  }

  // Both ends happen with a change of an hour: put forward over the hour, it is
  // skipped; put back over it, it comes twice.
  lemma SpringSkipsAutumnRepeats(start: int)
    requires start % 1440 == 60
    ensures HitsAcross(0, 60, start, 1, 2) == 0
    ensures HitsAcross(0, -60, start, 2, 2) == 2
  {
    ClockAt(start);
    HitsAcrossExactly(0, 60, start, 1, 2);
    HitsAcrossExactly(0, -60, start, 2, 2);
  }

  lemma ClockAt(start: int)
    requires start % 1440 == 60
    ensures LocalHour(0, start) == 1 && LocalHour(60, start + 60) == 3 && LocalHour(-60, start + 120) == 2
  {
    assert (start + 120) % 1440 == 180;
  }

  // How often such a day hits the hour is decided exactly by where the clock
  // stood at first and where it stands when the change comes.
  lemma HitsAcrossExactly(before: int, after: int, start: int, k: nat, hour: int)
    requires 0 <= hour < 24 && k <= 24
    ensures HitsAcross(before, after, start, k, hour)
         == (if (hour - LocalHour(before, start)) % 24 < k then 1 else 0)
          + (if (hour - LocalHour(after, start + 60 * k)) % 24 < 24 - k then 1 else 0)
  {
    HitsCount(before, start, k, hour);
    HitsCount(after, start + 60 * k, 24 - k, hour);
  }
}
