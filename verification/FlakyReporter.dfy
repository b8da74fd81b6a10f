// Which tests a run of retried attempts is reported as flaky or failed
// (e2e/flaky-reporter.ts, onTestEnd).
module FlakyReporter {

  datatype Attempt = Expected | Unexpected

  // A test, how often it may be retried, and how its attempts went.
  datatype Test = Test(limit: nat, attempts: seq<Attempt>)

  // Attempts stop at the first expected one or at the limit.
  ghost predicate Complete(t: Test) {
    && 0 < |t.attempts| <= t.limit + 1
    && (forall i | 0 <= i < |t.attempts| - 1 :: t.attempts[i] == Unexpected)
    && (t.attempts[|t.attempts| - 1] == Expected || |t.attempts| == t.limit + 1)
  }

  datatype Outcome = AsExpected | AsUnexpected | Flaky

  // The verdict across the attempts made so far.
  function OutcomeOf(attempts: seq<Attempt>): Outcome {
    if Unexpected !in attempts then AsExpected
    else if Expected !in attempts then AsUnexpected
    else Flaky
  }

  // An attempt of a test has ended.
  datatype Event = Event(test: nat, retry: nat)

  // A report names tests by their place in the run, with the retries used.
  datatype Entry = Entry(test: nat, retries: nat)

  datatype Report = Report(flaky: seq<Entry>, failed: seq<Entry>)

  class Reporter {
    var flaky: seq<Entry>
    var failed: seq<Entry>

    constructor ()
      ensures Now() == Report([], [])
    {
      flaky, failed := [], [];
    }

    ghost function Now(): Report
      reads this
    {
      Report(flaky, failed)
    }

    method OnTestEnd(tests: seq<Test>, e: Event)
      requires e.test < |tests| && e.retry < |tests[e.test].attempts|
      modifies this
      ensures Now() == Ended(old(Now()), tests, e)
    {
      var test := tests[e.test];
      if e.retry < test.limit {
        return;
      }
      var outcome := OutcomeOf(test.attempts[..e.retry + 1]);
      if outcome != Flaky && outcome != AsUnexpected {
        return;
      }
      var entry := Entry(e.test, e.retry);
      if outcome == Flaky {
        flaky := flaky + [entry];
      } else {
        failed := failed + [entry];
      }
    }
  }

  // The report after one more attempt ended: only the last permitted attempt
  // is recorded.
  function Ended(r: Report, tests: seq<Test>, e: Event): Report
    requires e.test < |tests| && e.retry < |tests[e.test].attempts|
  {
    var test := tests[e.test];
    var outcome := OutcomeOf(test.attempts[..e.retry + 1]);
    if e.retry < test.limit || outcome == AsExpected then r
    else if outcome == Flaky then r.(flaky := r.flaky + [Entry(e.test, e.retry)])
    else r.(failed := r.failed + [Entry(e.test, e.retry)])
  }

  ghost predicate Fits(tests: seq<Test>, events: seq<Event>) {
    forall e | e in events :: e.test < |tests| && e.retry < |tests[e.test].attempts|
  }

  function ReportOf(tests: seq<Test>, events: seq<Event>): Report
    requires Fits(tests, events)
  {
    if events == [] then Report([], [])
    else Ended(ReportOf(tests, events[..|events| - 1]), tests, events[|events| - 1])
  }

  // Every attempt of every test ends once, in any order.
  ghost predicate WholeRun(tests: seq<Test>, events: seq<Event>) {
    && (forall t | t in tests :: Complete(t))
    && (forall e :: e in events <==> e.test < |tests| && e.retry < |tests[e.test].attempts|)
    && (forall i, j | 0 <= i < j < |events| :: events[i] != events[j])
  }

  predicate AllUnexpected(t: Test) { Expected !in t.attempts }

  predicate Recovered(t: Test) { Expected in t.attempts && Unexpected in t.attempts }

  // ---- what is recorded when ----

  lemma LastAttemptDecides(t: Test)
    requires Complete(t) && |t.attempts| == t.limit + 1
    ensures OutcomeOf(t.attempts[..t.limit + 1]) == AsUnexpected <==> AllUnexpected(t)
    ensures OutcomeOf(t.attempts[..t.limit + 1]) == Flaky <==> Recovered(t)
  {
    assert t.attempts[..t.limit + 1] == t.attempts;
    assert t.attempts[0] in t.attempts;
  }

  lemma FailureUsesAllAttempts(t: Test)
    requires Complete(t)
    ensures AllUnexpected(t) ==> |t.attempts| == t.limit + 1
    ensures Recovered(t) && t.limit <= 1 ==> |t.attempts| == t.limit + 1
    ensures Recovered(t) ==> |t.attempts| >= 2
  {
    var last := |t.attempts| - 1;
    assert t.attempts[last] in t.attempts;
    assert last == 0 ==> t.attempts == [t.attempts[0]];
  }

  // The lists hold exactly the entries of the events that were recorded.
  ghost predicate Recorded(tests: seq<Test>, events: seq<Event>, e: Event, outcome: Outcome) {
    && e in events && e.test < |tests| && e.retry < |tests[e.test].attempts|
    && e.retry >= tests[e.test].limit && OutcomeOf(tests[e.test].attempts[..e.retry + 1]) == outcome
  }

  ghost predicate EachOnce(entries: seq<Entry>) {
    forall i, j | 0 <= i < j < |entries| :: entries[i] != entries[j]
  }

  // One more event puts its entry into the list of its outcome, if into any.
  lemma RecordedNext(tests: seq<Test>, front: seq<Event>, last: Event, x: Entry, outcome: Outcome, list: seq<Entry>,
                     longer: seq<Entry>)
    requires x in list <==> Recorded(tests, front, Event(x.test, x.retries), outcome)
    requires last.test < |tests| && last.retry < |tests[last.test].attempts|
    requires
      var made := OutcomeOf(tests[last.test].attempts[..last.retry + 1]);
      longer
      == list + if last.retry >= tests[last.test].limit && made == outcome then [Entry(last.test, last.retry)] else []
    ensures x in longer <==> Recorded(tests, front + [last], Event(x.test, x.retries), outcome)
  {
    var e := Event(x.test, x.retries);
    assert e in front + [last] <==> e in front || e == last;
    assert e == last <==> x == Entry(last.test, last.retry);
  }

  lemma {:induction false} ListsAreRecorded(tests: seq<Test>, events: seq<Event>)
    requires Fits(tests, events) && forall i, j | 0 <= i < j < |events| :: events[i] != events[j]
    ensures forall x :: x in ReportOf(tests, events).failed <==>
        Recorded(tests, events, Event(x.test, x.retries), AsUnexpected)
    ensures forall x :: x in ReportOf(tests, events).flaky <==> Recorded(tests, events, Event(x.test, x.retries), Flaky)
    ensures EachOnce(ReportOf(tests, events).failed) && EachOnce(ReportOf(tests, events).flaky)
  {
    if events != [] {
      var front, last := events[..|events| - 1], events[|events| - 1];
      assert events == front + [last] && last !in front;
      ListsAreRecorded(tests, front);
      var before, after := ReportOf(tests, front), ReportOf(tests, events);
      assert Entry(last.test, last.retry) !in before.failed && Entry(last.test, last.retry) !in before.flaky;
      forall x ensures x in after.failed <==> Recorded(tests, events, Event(x.test, x.retries), AsUnexpected) {
        RecordedNext(tests, front, last, x, AsUnexpected, before.failed, after.failed);
      }
      forall x ensures x in after.flaky <==> Recorded(tests, events, Event(x.test, x.retries), Flaky) {
        RecordedNext(tests, front, last, x, Flaky, before.flaky, after.flaky);
      }
    }
  }

  predicate Listed(entries: seq<Entry>, test: nat) { exists x :: x in entries && x.test == test }

  // For any limits and any interleaving: the failed list names exactly the
  // tests no attempt of which went as expected, and the flaky list exactly the
  // tests that recovered on the last attempt they had; each test once.
  lemma ReportIsExact(tests: seq<Test>, events: seq<Event>, k: nat)
    requires WholeRun(tests, events) && k < |tests|
    ensures Fits(tests, events)
    ensures Listed(ReportOf(tests, events).failed, k) <==> AllUnexpected(tests[k])
    ensures Listed(ReportOf(tests, events).flaky, k) <==>
              Recovered(tests[k]) && |tests[k].attempts| == tests[k].limit + 1
    ensures forall x | x in ReportOf(tests, events).failed + ReportOf(tests, events).flaky && x.test == k ::
              x.retries == tests[k].limit
    ensures EachOnce(ReportOf(tests, events).failed) && EachOnce(ReportOf(tests, events).flaky)
  {
    var t := tests[k];
    assert t in tests && Complete(t);
    ListsAreRecorded(tests, events);
    FailureUsesAllAttempts(t);
    var r := ReportOf(tests, events);
    var final := Event(k, t.limit);
    if |t.attempts| == t.limit + 1 {
      LastAttemptDecides(t);
      assert final in events;
      assert AllUnexpected(t) ==> Entry(k, t.limit) in r.failed;
      assert Recovered(t) ==> Entry(k, t.limit) in r.flaky;
    }
    forall x | (x in r.failed || x in r.flaky) && x.test == k
      ensures x.retries == t.limit && |t.attempts| == t.limit + 1
    {
      assert Event(x.test, x.retries) in events;
    }
  }

  // So a recovered test goes unreported exactly when it had attempts to spare,
  // which takes a limit of at least two.
  lemma MissedExactly(tests: seq<Test>, events: seq<Event>, k: nat)
    requires WholeRun(tests, events) && k < |tests|
    ensures Fits(tests, events)
    ensures Recovered(tests[k]) && !Listed(ReportOf(tests, events).flaky, k)
       <==> Recovered(tests[k]) && |tests[k].attempts| <= tests[k].limit
    ensures tests[k].limit <= 1 && Recovered(tests[k]) ==> Listed(ReportOf(tests, events).flaky, k)
  {
    ReportIsExact(tests, events, k);
    assert tests[k] in tests;
    FailureUsesAllAttempts(tests[k]);
  }

  // Two retries allowed, recovered on the first: nothing is reported.
  lemma EarlyRecoveryIsMissed()
    ensures
      var tests := [Test(2, [Unexpected, Expected])];
      var events := [Event(0, 0), Event(0, 1)];
      WholeRun(tests, events) && Recovered(tests[0])
      && Fits(tests, events) && ReportOf(tests, events) == Report([], [])
  {
    var tests := [Test(2, [Unexpected, Expected])];
    var events := [Event(0, 0), Event(0, 1)];
    assert Complete(tests[0]);
    assert events[0] == Event(0, 0) && events[1] == Event(0, 1);
    assert events[..1] == [Event(0, 0)] && events[..1][..0] == [];
    assert ReportOf(tests, events[..1]) == Report([], []);
    assert tests[0].attempts[0] == Unexpected && tests[0].attempts[1] == Expected;
  }
}
