// The log of messages received and sent, which is also what tells a repeated
// delivery from a new one, and the daily sweep that deletes its old rows
// (packages/core/src/channels/retention.ts, sweepMessageLog, beside
// recordInbound in packages/core/src/channels/inbound.ts).
module MessageLog {
  import opened Text
  import opened InboundDoor

  // What a row is about, as its idempotency key tells rows apart.
  datatype Entry = Received(delivery: Delivery) | Written(workspace: string, key: string)

  // The rows there are, each with the time it was made.
  type Log = map<Entry, int>

  const DAY_MS := 24 * 60 * 60 * 1000

  function WorkspaceOf(e: Entry): string {
    match e
    case Received(delivery) => delivery.workspace
    case Written(workspace, _) => workspace
  }

  // The deliveries the log remembers.
  function Remembered(log: Log): set<Delivery> {
    set e | e in log && e.Received? :: e.delivery
  }

  // ---- the sweep ----

  // The rows of a workspace made before a time.
  function Old(log: Log, workspace: string, cutoff: int): set<Entry> {
    set e | e in log && WorkspaceOf(e) == workspace && log[e] < cutoff
  }

  function Removed(before: Log, after: Log): set<Entry> { before.Keys - after.Keys }

  function Cutoff(days: int, now: int): int { now - days * DAY_MS }

  function Min(a: nat, b: nat): nat { if a < b then a else b }

  // What a sweep may leave: nothing is deleted without a window; with one, the
  // oldest of the rows outside it, as many as the batch holds. Rows made at
  // the same time may go in any order.
  predicate Sweeps(before: Log, workspace: string, days: int, now: int, batch: nat, after: Log) {
    if days <= 0 then after == before
    else
      var due, removed := Old(before, workspace, Cutoff(days, now)), Removed(before, after);
      && after == before - removed
      && removed <= due && |removed| == Min(batch, |due|)
      && forall a, b | a in removed && b in due - removed :: before[a] <= before[b]
  }

  // ---- runs ----

  // Serving a request, whose row is made at a time; logging a message that is
  // sent; sweeping one workspace.
  datatype Event =
    | Serve(f: Facts, at: int)
    | Write(workspace: string, key: string, at: int)
    | Sweep(workspace: string, days: int, now: int, batch: nat)

  // A row is made for a key that has none.
  function With(log: Log, e: Entry, at: int): Log { if e in log then log else log[e := at] }

  // The request gets as far as the log of deliveries.
  predicate Records(f: Facts, log: Log) {
    LastStep(f, Remembered(log)) >= Rank(RecordDelivery)
  }

  predicate Next(before: Log, e: Event, after: Log) {
    match e
    case Serve(f, at) => after == if Records(f, before) then With(before, Received(DeliveryOf(f)), at) else before
    case Write(workspace, key, at) => after == With(before, Written(workspace, key), at)
    case Sweep(workspace, days, now, batch) => Sweeps(before, workspace, days, now, batch, after)
  }

  predicate NextAt(logs: seq<Log>, events: seq<Event>, k: int)
    requires |logs| == |events| + 1 && 0 <= k < |events|
  {
    Next(logs[k], events[k], logs[k + 1])
  }

  // The log before and after each event.
  ghost predicate IsRun(logs: seq<Log>, events: seq<Event>) {
    |logs| == |events| + 1 && forall k | 0 <= k < |events| :: NextAt(logs, events, k)
  }

  // The k-th event routes this delivery.
  predicate Routes(logs: seq<Log>, events: seq<Event>, k: int, d: Delivery)
    requires |logs| == |events| + 1 && 0 <= k < |events|
  {
    && events[k].Serve? && DeliveryOf(events[k].f) == d
    && Routed(events[k].f, Remembered(logs[k]))
  }

  // The k-th event serves a request that asks the log about this delivery.
  predicate Asks(logs: seq<Log>, events: seq<Event>, k: int, d: Delivery)
    requires |logs| == |events| + 1 && 0 <= k < |events|
  {
    events[k].Serve? && DeliveryOf(events[k].f) == d && Records(events[k].f, logs[k])
  }

  // The k-th event is a sweep that deletes this delivery's row.
  predicate Forgets(logs: seq<Log>, events: seq<Event>, k: int, d: Delivery)
    requires |logs| == |events| + 1 && 0 <= k < |events|
  {
    events[k].Sweep? && Received(d) in logs[k] && Received(d) !in logs[k + 1]
  }

  // Everything about a request is in order but, perhaps, that it is new.
  predicate Ready(f: Facts) {
    && WhyRefused(f) == None && !Hooked(f) && f.message.Some? && !Missing(f.delivery)
    && !f.links && Vouched(f) && f.instead != Some(true)
  }

  lemma RememberedExactly(log: Log, d: Delivery)
    ensures d in Remembered(log) <==> Received(d) in log
  {
    if Received(d) in log {
      assert Received(d).delivery in Remembered(log);
    }
  }

  // The log remembers what the door does.
  lemma ServingRemembers(before: Log, f: Facts, at: int, after: Log)
    requires Next(before, Serve(f, at), after)
    ensures Remembered(after) == SeenAfter(f, Remembered(before))
  {
    forall d ensures d in Remembered(after) <==> d in SeenAfter(f, Remembered(before)) {
      RememberedExactly(before, d);
      RememberedExactly(after, d);
    }
  }

  // A row keeps its time, and goes only in a sweep that is late enough.
  lemma RowsStand(before: Log, e: Event, after: Log, x: Entry)
    requires Next(before, e, after) && x in before
    ensures x in after ==> after[x] == before[x]
    ensures x !in after ==> e.Sweep? && e.days > 0 && e.workspace == WorkspaceOf(x) && before[x] < Cutoff(e.days, e.now)
  {
    if e.Sweep? && x !in after {
      assert x in Removed(before, after);
    }
  }

  // A delivery is asked about, recorded, and stands until a sweep deletes it.
  lemma {:induction false} StandsUntilForgotten(logs: seq<Log>, events: seq<Event>, d: Delivery, i: nat, j: nat)
    requires IsRun(logs, events) && i < j <= |events| && Asks(logs, events, i, d)
    requires forall k | i < k < j :: !Forgets(logs, events, k, d)
    ensures Received(d) in logs[j]
  {
    assert NextAt(logs, events, j - 1);
    if j > i + 1 {
      StandsUntilForgotten(logs, events, d, i, j - 1);
      assert !Forgets(logs, events, j - 1, d);
      StandsOneMore(logs[j - 1], events[j - 1], logs[j], d);
    }
  }

  lemma StandsOneMore(before: Log, e: Event, after: Log, d: Delivery)
    requires Next(before, e, after) && Received(d) in before && !(e.Sweep? && Received(d) !in after)
    ensures Received(d) in after
  {
    RowsStand(before, e, after, Received(d));
  }

  // A delivery the log has forgotten stays forgotten until it is asked about.
  lemma {:induction false} ForgottenUntilAsked(logs: seq<Log>, events: seq<Event>, d: Delivery, k: nat, j: nat)
    requires IsRun(logs, events) && k < j <= |events| && Forgets(logs, events, k, d)
    requires forall m | k < m < j :: !Asks(logs, events, m, d)
    ensures Received(d) !in logs[j]
  {
    if j > k + 1 {
      ForgottenUntilAsked(logs, events, d, k, j - 1);
      assert NextAt(logs, events, j - 1) && !Asks(logs, events, j - 1, d);
    }
  }

  // The last sweep of the events from i to j that deletes the row, if any does.
  lemma {:induction false} LastForgets(logs: seq<Log>, events: seq<Event>, d: Delivery, i: nat, j: nat) returns (k: nat)
    requires IsRun(logs, events) && i < j <= |events| && exists k | i < k < j :: Forgets(logs, events, k, d)
    ensures i < k < j && Forgets(logs, events, k, d) && forall m | k < m < j :: !Forgets(logs, events, m, d)
  {
    if Forgets(logs, events, j - 1, d) && i < j - 1 {
      k := j - 1;
    } else {
      k := LastForgets(logs, events, d, i, j - 1);
    }
  }

  predicate ForgottenBetween(logs: seq<Log>, events: seq<Event>, d: Delivery, i: nat, j: nat)
    requires |logs| == |events| + 1 && j <= |events|
  {
    exists k | i < k < j :: Forgets(logs, events, k, d) && forall m | k < m < j :: !Asks(logs, events, m, d)
  }

  // Once the log has been asked about a delivery, a later request for it is
  // routed exactly when all else is in order and a sweep has deleted its row,
  // with nobody asking again since.
  lemma RoutedAgainExactly(logs: seq<Log>, events: seq<Event>, d: Delivery, i: nat, j: nat)
    requires IsRun(logs, events) && i < j < |events|
    requires Asks(logs, events, i, d) && events[j].Serve? && DeliveryOf(events[j].f) == d
    ensures Routes(logs, events, j, d) <==> Ready(events[j].f) && ForgottenBetween(logs, events, d, i, j)
  {
    RememberedExactly(logs[j], d);
    RoutedExactly(events[j].f, Remembered(logs[j]));
    if ForgottenBetween(logs, events, d, i, j) {
      var k :| i < k < j && Forgets(logs, events, k, d) && forall m | k < m < j :: !Asks(logs, events, m, d);
      ForgottenUntilAsked(logs, events, d, k, j);
    } else {
      StandsWhenAsked(logs, events, d, i, j);
    }
  }

  lemma StandsWhenAsked(logs: seq<Log>, events: seq<Event>, d: Delivery, i: nat, j: nat)
    requires IsRun(logs, events) && i < j <= |events| && Asks(logs, events, i, d)
    requires !ForgottenBetween(logs, events, d, i, j)
    ensures Received(d) in logs[j]
  {
    if exists k | i < k < j :: Forgets(logs, events, k, d) {
      var k := LastForgets(logs, events, d, i, j);
      var m :| k < m < j && Asks(logs, events, m, d);
      StandsUntilForgotten(logs, events, d, m, j);
    } else {
      StandsUntilForgotten(logs, events, d, i, j);
    }
  }

  lemma RoutingAsks(logs: seq<Log>, events: seq<Event>, k: nat, d: Delivery)
    requires |logs| == |events| + 1 && k < |events| && Routes(logs, events, k, d)
    ensures Asks(logs, events, k, d)
  {
  }

  // Between two sweeps that delete its row a delivery is routed at most once,
  // however often a provider repeats it.
  lemma RoutedOncePerSweep(logs: seq<Log>, events: seq<Event>, d: Delivery, i: nat, j: nat)
    requires IsRun(logs, events) && i < j < |events|
    requires Routes(logs, events, i, d) && Routes(logs, events, j, d)
    ensures exists k | i < k < j :: Forgets(logs, events, k, d)
  {
    RoutingAsks(logs, events, i, d);
    RoutedAgainExactly(logs, events, d, i, j);
  }

  // ---- the window ----

  // Of the events after i and before j no sweep of the workspace reaches a time.
  ghost predicate InsideWindow(events: seq<Event>, i: int, j: int, workspace: string, at: int) {
    forall k | i < k < j && 0 <= k < |events| && events[k].Sweep? && events[k].workspace == workspace ::
      events[k].days <= 0 || Cutoff(events[k].days, events[k].now) <= at
  }

  lemma {:induction false} RowKeepsTime(logs: seq<Log>, events: seq<Event>, x: Entry, i: nat, j: nat)
    requires IsRun(logs, events) && i <= j <= |events| && x in logs[i]
    requires InsideWindow(events, i - 1, j, WorkspaceOf(x), logs[i][x])
    ensures x in logs[j] && logs[j][x] == logs[i][x]
  {
    if i < j {
      RowKeepsTime(logs, events, x, i, j - 1);
      assert NextAt(logs, events, j - 1);
      RowsStand(logs[j - 1], events[j - 1], logs[j], x);
    }
  }

  // A repeat is not routed again while no sweep reaches back to the first
  // delivery: with a window of zero, never.
  lemma RepeatInsideWindow(logs: seq<Log>, events: seq<Event>, d: Delivery, i: nat, j: nat)
    requires IsRun(logs, events) && i < j < |events| && Routes(logs, events, i, d)
    requires InsideWindow(events, i, j, d.workspace, events[i].at)
    ensures !Routes(logs, events, j, d)
  {
    RoutingAsks(logs, events, i, d);
    RoutedExactly(events[i].f, Remembered(logs[i]));
    RememberedExactly(logs[i], d);
    assert NextAt(logs, events, i);
    RowKeepsTime(logs, events, Received(d), i + 1, j);
    RememberedExactly(logs[j], d);
    if events[j].Serve? {
      RoutedExactly(events[j].f, Remembered(logs[j]));
    }
  }

  // The input that is routed twice: a delivery, a sweep late enough to delete
  // its row, and the delivery again.
  lemma SweptIsRoutedAgain(log: Log, f: Facts, at: int, days: int, now: int, batch: nat, again: int)
    returns (logs: seq<Log>, events: seq<Event>)
    requires Ready(f) && Received(DeliveryOf(f)) !in log && days > 0 && at < Cutoff(days, now)
    requires |Old(With(log, Received(DeliveryOf(f)), at), DeliveryOf(f).workspace, Cutoff(days, now))| <= batch
    ensures events == [Serve(f, at), Sweep(DeliveryOf(f).workspace, days, now, batch), Serve(f, again)]
    ensures IsRun(logs, events) && logs[0] == log
    ensures Routes(logs, events, 0, DeliveryOf(f)) && Routes(logs, events, 2, DeliveryOf(f))
  {
    var d := DeliveryOf(f);
    var served := With(log, Received(d), at);
    var swept := served - Old(served, d.workspace, Cutoff(days, now));
    FirstTime(log, f);
    RowIsMade(log, f, at, Cutoff(days, now));
    SweepAll(served, Received(d), days, now, batch);
    FirstTime(swept, f);
    RowIsMade(swept, f, again, again + 1);
    logs := [log, served, swept, With(swept, Received(d), again)];
    events := [Serve(f, at), Sweep(d.workspace, days, now, batch), Serve(f, again)];
    ThreeSteps(logs, events);
  }

  lemma ThreeSteps(logs: seq<Log>, events: seq<Event>)
    requires |logs| == 4 && |events| == 3
    requires Next(logs[0], events[0], logs[1]) && Next(logs[1], events[1], logs[2]) && Next(logs[2], events[2], logs[3])
    ensures IsRun(logs, events)
  {
  }

  // The first delivery makes a row that the window leaves behind.
  lemma RowIsMade(log: Log, f: Facts, at: int, cutoff: int)
    requires Ready(f) && Received(DeliveryOf(f)) !in log && at < cutoff
    ensures
      var served := With(log, Received(DeliveryOf(f)), at);
      Next(log, Serve(f, at), served) && Received(DeliveryOf(f)) in served && served[Received(DeliveryOf(f))] < cutoff
  {
    FirstTime(log, f);
  }

  // A request in order is routed when the log has no row for it.
  lemma FirstTime(log: Log, f: Facts)
    requires Ready(f)
    ensures Routed(f, Remembered(log)) <==> Received(DeliveryOf(f)) !in log
    ensures Routed(f, Remembered(log)) ==> Records(f, log)
  {
    RoutedExactly(f, Remembered(log));
    RememberedExactly(log, DeliveryOf(f));
  }

  // A batch that holds every row outside the window takes them all.
  lemma SweepAll(log: Log, e: Entry, days: int, now: int, batch: nat)
    requires days > 0 && |Old(log, WorkspaceOf(e), Cutoff(days, now))| <= batch
    requires e in log && log[e] < Cutoff(days, now)
    ensures
      var swept := log - Old(log, WorkspaceOf(e), Cutoff(days, now));
      Sweeps(log, WorkspaceOf(e), days, now, batch, swept) && e !in swept
  {
    var due := Old(log, WorkspaceOf(e), Cutoff(days, now));
    assert Removed(log, log - due) == due && due - due == {};
  }

  // ---- how a backlog drains ----

  // How many of the events sweep this workspace back to a time or later, a
  // batch at a time.
  function SweepsReaching(events: seq<Event>, workspace: string, cutoff: int, batch: nat): nat {
    if events == [] then 0
    else
      SweepsReaching(events[..|events| - 1], workspace, cutoff, batch)
      + if Reaches(events[|events| - 1], workspace, cutoff, batch) then 1 else 0
  }

  predicate Reaches(e: Event, workspace: string, cutoff: int, batch: nat) {
    e.Sweep? && e.workspace == workspace && e.days > 0 && cutoff <= Cutoff(e.days, e.now) && e.batch == batch
  }

  // Rows are made now, not in the past.
  predicate MadeFrom(e: Event, cutoff: int) {
    match e
    case Serve(_, at) => cutoff <= at
    case Write(_, _, at) => cutoff <= at
    case Sweep(_, _, _, _) => true
  }

  lemma OldOnlyShrinks(before: Log, e: Event, after: Log, workspace: string, cutoff: int)
    requires Next(before, e, after) && MadeFrom(e, cutoff)
    ensures Old(after, workspace, cutoff) <= Old(before, workspace, cutoff)
  {
  }

  // A sweep takes the oldest first, so whatever window it has, a whole batch
  // of the rows older than an earlier time is gone, or all of them.
  lemma SweepTakesOldest(before: Log, e: Event, after: Log, workspace: string, cutoff: int, batch: nat)
    requires Next(before, e, after) && Reaches(e, workspace, cutoff, batch)
    ensures |Old(after, workspace, cutoff)| <= Max(|Old(before, workspace, cutoff)| - batch, 0)
  {
    var left, was := Old(after, workspace, cutoff), Old(before, workspace, cutoff);
    if left != {} {
      var b :| b in left;
      OldestGone(before, e, after, workspace, cutoff, batch, b);
    }
  }

  // With a row left that is older than the time, only older ones have gone,
  // and a whole batch of them.
  lemma OldestGone(before: Log, e: Event, after: Log, workspace: string, cutoff: int, batch: nat, b: Entry)
    requires Next(before, e, after) && Reaches(e, workspace, cutoff, batch) && b in Old(after, workspace, cutoff)
    ensures |Old(after, workspace, cutoff)| == |Old(before, workspace, cutoff)| - batch
  {
    var due, removed := Old(before, workspace, Cutoff(e.days, e.now)), Removed(before, after);
    assert b in due - removed && removed <= due - {b};
    FewerThan(removed, due - {b});
    assert |removed| == batch;
    OlderThan(before, after, workspace, cutoff, due, b);
    FewerThan(removed, Old(before, workspace, cutoff));
  }

  lemma OlderThan(before: Log, after: Log, workspace: string, cutoff: int, due: set<Entry>, b: Entry)
    requires due <= before.Keys && after == before - Removed(before, after)
    requires Removed(before, after) <= due && b in due - Removed(before, after) && before[b] < cutoff
    requires forall x | x in due :: WorkspaceOf(x) == workspace
    requires forall x, y | x in Removed(before, after) && y in due - Removed(before, after) :: before[x] <= before[y]
    ensures Removed(before, after) <= Old(before, workspace, cutoff)
    ensures Old(after, workspace, cutoff) == Old(before, workspace, cutoff) - Removed(before, after)
  {
  }

  // A sweep that reports less than a full batch has left no row outside its
  // window.
  lemma UnfilledBatchLeavesNone(before: Log, workspace: string, days: int, now: int, batch: nat, after: Log)
    requires Sweeps(before, workspace, days, now, batch, after) && days > 0
    ensures |Removed(before, after)| < batch <==> |Old(before, workspace, Cutoff(days, now))| < batch
    ensures |Removed(before, after)| < batch ==> Old(after, workspace, Cutoff(days, now)) == {}
  {
    var due, removed := Old(before, workspace, Cutoff(days, now)), Removed(before, after);
    assert Old(after, workspace, Cutoff(days, now)) == due - removed;
    FewerThan(removed, due);
  }

  lemma FewerThan<T>(a: set<T>, b: set<T>)
    requires a <= b
    ensures |b - a| == |b| - |a| >= 0
  {
    assert b == a + (b - a);
  }

  function Max(a: int, b: int): int { if a < b then b else a }

  ghost predicate AllMadeFrom(events: seq<Event>, cutoff: int) { forall e | e in events :: MadeFrom(e, cutoff) }

  lemma MadeFromFront(events: seq<Event>, cutoff: int)
    requires AllMadeFrom(events, cutoff) && events != []
    ensures AllMadeFrom(events[..|events| - 1], cutoff) && MadeFrom(events[|events| - 1], cutoff)
  {
    assert forall e | e in events[..|events| - 1] :: e in events;
  }

  // However many rows have gathered before the window was set, each sweep
  // takes a batch of them, so as many sweeps as batches leave none.
  lemma {:induction false} BacklogDrains(logs: seq<Log>, events: seq<Event>, workspace: string, cutoff: int, batch: nat)
    requires IsRun(logs, events) && AllMadeFrom(events, cutoff)
    ensures |Old(logs[|events|], workspace, cutoff)|
         <= Max(|Old(logs[0], workspace, cutoff)| - batch * SweepsReaching(events, workspace, cutoff, batch), 0)
    decreases |events|
  {
    if events != [] {
      var n := |events| - 1;
      var front, earlier := events[..n], logs[..|events|];
      RunFront(logs, events);
      MadeFromFront(events, cutoff);
      BacklogDrains(earlier, front, workspace, cutoff, batch);
      OneMoreEvent(logs[n], events[n], logs[n + 1], workspace, cutoff, batch, |Old(logs[0], workspace, cutoff)|,
                   SweepsReaching(front, workspace, cutoff, batch),
                   SweepsReaching(events, workspace, cutoff, batch));
    }
  }

  lemma OneMoreEvent(before: Log, e: Event, after: Log, workspace: string, cutoff: int, batch: nat, rows: nat,
                     sweeps: nat, more: nat)
    requires Next(before, e, after) && MadeFrom(e, cutoff)
    requires |Old(before, workspace, cutoff)| <= Max(rows - batch * sweeps, 0)
    requires more == sweeps + if Reaches(e, workspace, cutoff, batch) then 1 else 0
    ensures |Old(after, workspace, cutoff)| <= Max(rows - batch * more, 0)
  {
    OldOnlyShrinks(before, e, after, workspace, cutoff);
    FewerThan(Old(after, workspace, cutoff), Old(before, workspace, cutoff));
    if Reaches(e, workspace, cutoff, batch) {
      SweepTakesOldest(before, e, after, workspace, cutoff, batch);
      OneBatchLess(rows, batch, sweeps, |Old(before, workspace, cutoff)|, |Old(after, workspace, cutoff)|);
    }
  }

  lemma OneBatchLess(rows: nat, batch: nat, sweeps: nat, were: nat, are: nat)
    requires were <= Max(rows - batch * sweeps, 0) && are <= Max(were - batch, 0)
    ensures are <= Max(rows - batch * (sweeps + 1), 0)
  {
    assert batch * (sweeps + 1) == batch * sweeps + batch;
  }

  lemma RunFront(logs: seq<Log>, events: seq<Event>)
    requires IsRun(logs, events) && events != []
    ensures IsRun(logs[..|events|], events[..|events| - 1]) && NextAt(logs, events, |events| - 1)
    ensures logs[..|events|][|events| - 1] == logs[|events| - 1] && logs[..|events|][0] == logs[0]
  {
    var ls, es := logs[..|events|], events[..|events| - 1];
    forall k | 0 <= k < |es| ensures NextAt(ls, es, k) {
      assert NextAt(logs, events, k);
    }
  }
}
