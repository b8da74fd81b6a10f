// A single board's connection: the roster it keeps, the signals it hears and
// the ones it sends (apps/web/lib/board-presence.ts, joinBoardPresence).
module BoardPresence {
  import opened Text
  import opened PresenceRoster

  // What one connection holds. `last` is the list last handed over, joined;
  // `shown` is that list itself.
  datatype View = View(member: string, viewer: string, roster: Roster, last: string, shown: seq<string>, closed: bool)

  function NewView(member: string, viewer: string): View {
    View(member, viewer, [], "", [], false)
  }

  function HereSignal(view: View, join: bool): Signal { Signal(Here, view.member, view.viewer, join) }

  function LeftSignal(view: View): Signal { Signal(Left, view.member, view.viewer, false) }

  // The others handed over, unless that very list was the last one.
  function Changed(view: View): View {
    var others := Others(view.roster, view.member);
    var key := Join(others, ",");
    if key != view.last then view.(last := key, shown := others) else view
  }

  function WithRoster(view: View, roster: Roster): View {
    var next := view.(roster := roster);
    if Members(roster) != Members(view.roster) then Changed(next) else next
  }

  predicate Ignores(view: View, signal: Signal) { view.closed || signal.viewer == view.viewer }

  // A signal heard.
  function Hear(view: View, signal: Signal, now: int): View {
    if Ignores(view, signal) then view
    else WithRoster(view, Note(view.roster, signal, now))
  }

  // What the board says back at once: only a newcomer is answered, and the
  // answer asks for none.
  function Replies(view: View, signal: Signal): (r: seq<Signal>)
    ensures r == [] || (|r| == 1 && r == [r[0]] && !r[0].join && r[0].kind == Here && !view.closed)
    ensures r != [] <==> !Ignores(view, signal) && signal.kind == Here && signal.join
  {
    if !Ignores(view, signal) && signal.kind == Here && signal.join then [HereSignal(view, false)] else []
  }

  function Beat(view: View, now: int): View { WithRoster(view, Swept(view.roster, now)) }

  // ---- the list handed over is never out of date ----

  predicate GoodName(s: string) { s != "" && ',' !in s }

  ghost predicate GoodMembers(roster: Roster) { forall e | e in roster :: GoodName(e.member) }

  // The last list handed over names exactly the members in the roster.
  ghost predicate Current(view: View) {
    && view.last == Join(view.shown, ",")
    && (forall m | m in view.shown :: GoodName(m))
    && (forall m :: m in view.shown <==> m in Members(view.roster) && m != view.member)
  }

  // Lists of comma-free names that join alike are alike.
  lemma JoinIsInjective(a: seq<string>, b: seq<string>)
    requires forall m | m in a :: GoodName(m)
    requires forall m | m in b :: GoodName(m)
    requires Join(a, ",") == Join(b, ",")
    ensures a == b
  {
    JoinIsEmptyOnlyOfNone(a);
    JoinIsEmptyOnlyOfNone(b);
    if a != [] && b != [] {
      SplitJoin(a, ',');
      SplitJoin(b, ',');
    }
  }

  lemma JoinIsEmptyOnlyOfNone(a: seq<string>)
    requires forall m | m in a :: GoodName(m)
    ensures Join(a, ",") == "" <==> a == []
  {
    if a != [] {
      assert GoodName(a[0]);
    }
  }

  lemma OthersAreGood(roster: Roster, self: string)
    requires GoodMembers(roster)
    ensures forall m | m in Others(roster, self) :: GoodName(m)
  {
    forall m | m in Others(roster, self) ensures GoodName(m) {
      assert m in Members(roster);
    }
  }

  lemma ChangedIsCurrent(view: View)
    requires GoodMembers(view.roster)
    requires view.last == Join(view.shown, ",") && forall m | m in view.shown :: GoodName(m)
    ensures Current(Changed(view)) && Changed(view).shown == Others(view.roster, view.member)
  {
    var others := Others(view.roster, view.member);
    OthersAreGood(view.roster, view.member);
    if Join(others, ",") == view.last {
      JoinIsInjective(others, view.shown);
    }
  }

  // Whatever the roster becomes, the list handed over keeps up with its members.
  lemma StaysCurrent(view: View, roster: Roster)
    requires Current(view) && GoodMembers(roster)
    ensures Current(WithRoster(view, roster))
  {
    if Members(roster) != Members(view.roster) {
      ChangedIsCurrent(view.(roster := roster));
    }
  }

  // ---- but its order can be ----

  // The list handed over is the roster's list, order included.
  ghost predicate InOrder(view: View) { view.shown == Others(view.roster, view.member) }

  function Staying(roster: Roster, stays: Entry -> bool): Roster {
    if roster == [] then []
    else (if stays(roster[0]) then [roster[0]] else []) + Staying(roster[1..], stays)
  }

  // Whose entry is the first to stay, of members not seen before.
  function NextStaying(roster: Roster, stays: Entry -> bool, seen: set<string>): Option<string> {
    if roster == [] then None
    else if stays(roster[0]) && roster[0].member !in seen then Some(roster[0].member)
    else NextStaying(roster[1..], stays, seen)
  }

  // Wherever the entry a member is listed by goes, the next to stay, of anybody
  // not listed before it, is that member's too: nobody overtakes.
  ghost predicate NoneOvertakes(roster: Roster, stays: Entry -> bool, seen: set<string>) {
    forall i: nat | i < |roster| && !stays(roster[i]) && roster[i].member !in seen + Members(roster[..i]) ::
      NextStaying(roster[i + 1..], stays, seen + Members(roster[..i])) == Some(roster[i].member)
  }

  // Somebody has no entry left.
  ghost predicate SomebodyGoes(roster: Roster, stays: Entry -> bool) {
    exists e :: e in roster && forall x | x in roster && x.member == e.member :: !stays(x)
  }

  lemma {:induction false} StayingExactly(roster: Roster, stays: Entry -> bool)
    ensures forall e :: e in Staying(roster, stays) <==> e in roster && stays(e)
  {
    if roster != [] {
      StayingExactly(roster[1..], stays);
    }
  }

  lemma NoneOvertakesHead(roster: Roster, stays: Entry -> bool, seen: set<string>)
    requires roster != []
    ensures NoneOvertakes(roster, stays, seen) <==>
            && (!stays(roster[0]) && roster[0].member !in seen ==>
                  NextStaying(roster[1..], stays, seen) == Some(roster[0].member))
            && NoneOvertakes(roster[1..], stays, seen + {roster[0].member})
  {
    var m, rest := roster[0].member, roster[1..];
    assert seen + Members(roster[..0]) == seen;
    forall i: nat | i < |rest|
      ensures rest[i] == roster[i + 1] && roster[i + 2..] == rest[i + 1..]
      ensures seen + Members(roster[..i + 1]) == seen + {m} + Members(rest[..i])
    {
      assert roster[..i + 1] == [roster[0]] + rest[..i];
      assert Members(roster[..i + 1]) == {m} + Members(rest[..i]);
    }
    if NoneOvertakes(roster, stays, seen) {
      forall i: nat | i < |rest| && !stays(rest[i]) && rest[i].member !in seen + {m} + Members(rest[..i])
        ensures NextStaying(rest[i + 1..], stays, seen + {m} + Members(rest[..i])) == Some(rest[i].member)
      {
        assert roster[i + 1] == rest[i];
      }
    }
    if NoneOvertakes(rest, stays, seen + {m}) {
      forall i: nat | 0 < i < |roster| && !stays(roster[i]) && roster[i].member !in seen + Members(roster[..i])
        ensures NextStaying(roster[i + 1..], stays, seen + Members(roster[..i])) == Some(roster[i].member)
      {
        assert rest[i - 1] == roster[i];
      }
    }
  }

  lemma {:induction false} NextStayingIsHead(roster: Roster, stays: Entry -> bool, seen: set<string>)
    ensures
      var list := Newcomers(Staying(roster, stays), seen);
      NextStaying(roster, stays, seen) == if list == [] then None else Some(list[0])
  {
    if roster != [] {
      NextStayingIsHead(roster[1..], stays, seen);
      StayingHead(roster, stays);
    }
  }

  lemma StayingHead(roster: Roster, stays: Entry -> bool)
    requires roster != []
    ensures stays(roster[0]) ==> Staying(roster, stays) != [] && Staying(roster, stays)[0] == roster[0]
    ensures stays(roster[0]) ==> Staying(roster, stays)[1..] == Staying(roster[1..], stays)
    ensures !stays(roster[0]) ==> Staying(roster, stays) == Staying(roster[1..], stays)
    ensures Members(Staying(roster, stays))
         == (if stays(roster[0]) then {roster[0].member} else {}) + Members(Staying(roster[1..], stays))
  {
    if stays(roster[0]) {
      assert Staying(roster, stays) == [roster[0]] + Staying(roster[1..], stays);
    } else {
      assert [] + Staying(roster[1..], stays) == Staying(roster[1..], stays);
    }
  }

  // Without the one who leads it, a list is its rest.
  lemma {:induction false} LeaderSeen(roster: Roster, seen: set<string>, m: string)
    requires Newcomers(roster, seen) != [] && Newcomers(roster, seen)[0] == m
    ensures Newcomers(roster, seen + {m}) == Newcomers(roster, seen)[1..]
  {
    if roster[0].member in seen {
      LeaderSeen(roster[1..], seen, m);
    }
  }

  // While nobody goes altogether, the order stays exactly when nobody overtakes.
  lemma {:induction false} StayingInOrder(roster: Roster, stays: Entry -> bool, seen: set<string>)
    requires Members(Staying(roster, stays)) - seen == Members(roster) - seen
    ensures Newcomers(Staying(roster, stays), seen) == Newcomers(roster, seen) <==> NoneOvertakes(roster, stays, seen)
  {
    if roster != [] {
      var m, rest := roster[0].member, roster[1..];
      NoneOvertakesHead(roster, stays, seen);
      RestMembers(roster, stays, seen);
      StayingInOrder(rest, stays, seen + {m});
      if m in seen {
        SeenSkipped(roster, stays, seen);
      } else {
        LedBy(roster, stays, seen);
      }
    }
  }

  // A member seen before is not listed again.
  lemma SeenSkipped(roster: Roster, stays: Entry -> bool, seen: set<string>)
    requires roster != [] && roster[0].member in seen
    ensures seen + {roster[0].member} == seen
    ensures Newcomers(Staying(roster, stays), seen) == Newcomers(Staying(roster[1..], stays), seen)
    ensures Newcomers(roster, seen) == Newcomers(roster[1..], seen)
  {
    StayingHead(roster, stays);
  }

  lemma RestMembers(roster: Roster, stays: Entry -> bool, seen: set<string>)
    requires roster != [] && Members(Staying(roster, stays)) - seen == Members(roster) - seen
    ensures
      var m, rest := roster[0].member, roster[1..];
      Members(Staying(rest, stays)) - (seen + {m}) == Members(rest) - (seen + {m})
  {
    var m, rest := roster[0].member, roster[1..];
    StayingHead(roster, stays);
    assert Members(roster) == {m} + Members(rest);
    LessOne(Members(Staying(rest, stays)), Members(rest), if stays(roster[0]) then {m} else {}, m, seen);
  }

  lemma LessOne(a: set<string>, b: set<string>, first: set<string>, m: string, seen: set<string>)
    requires (first + a) - seen == ({m} + b) - seen && first <= {m}
    ensures a - (seen + {m}) == b - (seen + {m})
  {
    forall x | x != m && x !in seen ensures x in a <==> x in b {
      assert x in (first + a) - seen <==> x in ({m} + b) - seen;
    }
  }

  // The two lists are alike when both are led by the first entry's member and
  // go on alike.
  lemma LedBy(roster: Roster, stays: Entry -> bool, seen: set<string>)
    requires roster != [] && roster[0].member !in seen
    ensures
      var m, rest := roster[0].member, roster[1..];
      Newcomers(Staying(roster, stays), seen) == Newcomers(roster, seen) <==>
        && (!stays(roster[0]) ==> NextStaying(rest, stays, seen) == Some(m))
        && Newcomers(Staying(rest, stays), seen + {m}) == Newcomers(rest, seen + {m})
  {
    var m, rest := roster[0].member, roster[1..];
    StayingHead(roster, stays);
    ListsFrom(Newcomers(Staying(roster, stays), seen), Newcomers(roster, seen), m);
    NextStayingIsHead(rest, stays, seen);
    if !stays(roster[0]) && NextStaying(rest, stays, seen) == Some(m) {
      LeaderSeen(Staying(rest, stays), seen, m);
    }
  }

  lemma ListsFrom(a: seq<string>, b: seq<string>, m: string)
    requires b != [] && b[0] == m
    ensures a == b <==> a != [] && a[0] == m && a[1..] == b[1..]
  {
    if a != [] && a[0] == m {
      assert a == [m] + a[1..] && b == [m] + b[1..];
    }
  }

  // When entries go, however many, the list handed over stays in order exactly
  // when somebody has none left, so that it is handed over anew, or nobody
  // overtakes.
  lemma OrderKeptExactly(view: View, stays: Entry -> bool)
    requires Current(view) && InOrder(view) && GoodMembers(view.roster)
    ensures InOrder(WithRoster(view, Staying(view.roster, stays))) <==>
            SomebodyGoes(view.roster, stays) || NoneOvertakes(view.roster, stays, {view.member})
  {
    var roster, left := view.roster, Staying(view.roster, stays);
    StayingExactly(roster, stays);
    assert GoodMembers(left);
    if Members(left) == Members(roster) {
      forall e | e in roster ensures exists x :: x in roster && x.member == e.member && stays(x) {
        assert e.member in Members(left);
      }
      StayingInOrder(roster, stays, {view.member});
    } else {
      ChangedIsCurrent(view.(roster := left));
      var m :| m in Members(roster) && m !in Members(left);
      var e :| e in roster && e.member == m;
      assert forall x | x in roster && x.member == m && stays(x) :: x in left;
    }
  }

  function NotFrom(viewer: string): Entry -> bool { (e: Entry) => e.viewer != viewer }

  function StillFresh(now: int): Entry -> bool { (e: Entry) => !Expired(e, now) }

  lemma {:induction false} WithoutStays(roster: Roster, viewer: string)
    ensures Without(roster, viewer) == Staying(roster, NotFrom(viewer))
  {
    if roster != [] {
      WithoutStays(roster[1..], viewer);
    }
  }

  lemma {:induction false} SweptStays(roster: Roster, now: int)
    ensures Swept(roster, now) == Staying(roster, StillFresh(now))
  {
    if roster != [] {
      SweptStays(roster[1..], now);
    }
  }

  // So it is with a heartbeat's sweep.
  lemma SweepOrderExactly(view: View, now: int)
    requires Current(view) && InOrder(view) && GoodMembers(view.roster)
    ensures InOrder(Beat(view, now)) <==>
            SomebodyGoes(view.roster, StillFresh(now)) || NoneOvertakes(view.roster, StillFresh(now), {view.member})
  {
    SweptStays(view.roster, now);
    OrderKeptExactly(view, StillFresh(now));
  }

  // And with a tab that closes.
  lemma LeavingOrderExactly(view: View, signal: Signal, now: int)
    requires Current(view) && InOrder(view) && GoodMembers(view.roster)
    requires signal.kind == Left && !Ignores(view, signal)
    ensures InOrder(Hear(view, signal, now)) <==>
            || SomebodyGoes(view.roster, NotFrom(signal.viewer))
            || NoneOvertakes(view.roster, NotFrom(signal.viewer), {view.member})
  {
    WithoutStays(view.roster, signal.viewer);
    OrderKeptExactly(view, NotFrom(signal.viewer));
  }

  lemma {:induction false} RefreshedInOrder(roster: Roster, entry: Entry, seen: set<string>)
    requires forall e | e in roster && e.viewer == entry.viewer :: e.member == entry.member
    requires entry.member in Members(roster) + seen
    ensures Newcomers(Refreshed(roster, entry), seen) == Newcomers(roster, seen)
  {
    if roster != [] && roster[0].viewer != entry.viewer {
      var m := roster[0].member;
      assert Members(roster) == {m} + Members(roster[1..]);
      RefreshedInOrder(roster[1..], entry, if m in seen then seen else seen + {m});
    }
  }

  lemma {:induction false} RefreshedHolds(roster: Roster, entry: Entry)
    ensures entry in Refreshed(roster, entry)
    ensures forall e | e in Refreshed(roster, entry) :: e == entry || e in roster
  {
    if roster != [] && roster[0].viewer != entry.viewer {
      RefreshedHolds(roster[1..], entry);
    }
  }

  // A board that is heard never disturbs the order, as long as a viewer is one
  // member's only.
  lemma HereKeepsOrder(view: View, signal: Signal, now: int)
    requires Current(view) && InOrder(view) && GoodMembers(view.roster)
    requires signal.kind == Here && GoodName(signal.member)
    requires forall e | e in view.roster && e.viewer == signal.viewer :: e.member == signal.member
    ensures InOrder(Hear(view, signal, now))
  {
    var entry := Entry(signal.viewer, signal.member, now);
    var next := Refreshed(view.roster, entry);
    RefreshedHolds(view.roster, entry);
    assert GoodMembers(next);
    if Members(next) == Members(view.roster) {
      assert entry.member in Members(next);
      RefreshedInOrder(view.roster, entry, {view.member});
    } else {
      ChangedIsCurrent(view.(roster := next));
    }
  }

  function HearAll(view: View, signals: seq<Signal>, now: int): View
    decreases |signals|
  {
    if signals == [] then view else HearAll(Hear(view, signals[0], now), signals[1..], now)
  }

  function Says(kind: SignalKind, member: string, viewer: string): Signal { Signal(kind, member, viewer, false) }

  // An open connection with this roster, which has handed over this list.
  ghost predicate Showing(view: View, member: string, viewer: string, roster: Roster, shown: seq<string>) {
    && view.member == member && view.viewer == viewer && !view.closed && view.roster == roster && view.shown == shown
    && Current(view) && InOrder(view) && GoodMembers(roster)
  }

  // A board heard for the first time goes to the end of the roster, and its
  // member, unless listed already, to the end of the list.
  lemma FirstHeard(view: View, self: string, me: string, roster: Roster, shown: seq<string>, entry: Entry)
    requires Showing(view, self, me, roster, shown) && GoodName(entry.member)
    requires entry.viewer != me && entry.member != self && forall e | e in roster :: e.viewer != entry.viewer
    ensures Showing(Hear(view, Says(Here, entry.member, entry.viewer), entry.at), self, me, roster + [entry],
                    shown + if entry.member in Members(roster) then [] else [entry.member])
  {
    var longer := roster + [entry];
    Appended(roster, entry);
    NewcomersEnd(roster, entry, {self});
    LastMember(roster, entry);
    StaysCurrent(view, longer);
    if entry.member !in Members(roster) {
      ChangedIsCurrent(view.(roster := longer));
    }
  }

  lemma LastMember(roster: Roster, entry: Entry)
    ensures Members(roster + [entry]) == Members(roster) + {entry.member}
  {
    assert (roster + [entry])[|roster|] == entry;
  }

  lemma {:induction false} Appended(roster: Roster, entry: Entry)
    requires forall e | e in roster :: e.viewer != entry.viewer
    ensures Refreshed(roster, entry) == roster + [entry]
  {
    if roster != [] {
      assert roster[0] in roster;
      Appended(roster[1..], entry);
    }
  }

  lemma {:induction false} NewcomersEnd(roster: Roster, entry: Entry, seen: set<string>)
    ensures Newcomers(roster + [entry], seen)
         == Newcomers(roster, seen) + if entry.member in Members(roster) + seen then [] else [entry.member]
  {
    if roster == [] {
      assert roster + [entry] == [entry] && [entry][1..] == [];
    } else {
      var m := roster[0].member;
      assert (roster + [entry])[1..] == roster[1..] + [entry];
      assert Members(roster) == {m} + Members(roster[1..]);
      NewcomersEnd(roster[1..], entry, if m in seen then seen else seen + {m});
    }
  }

  // The list handed over can fall out of order, from the first signal on: Bo
  // opens a tab, Cy joins, and Bo opens a second tab and closes the first.
  lemma OrderGoesStale(ada: string, bo: string, cy: string, me: string, v: seq<string>, now: int)
    requires |v| == 3 && v[0] != v[1] && v[0] != v[2] && v[1] != v[2] && me !in v
    requires GoodName(bo) && GoodName(cy) && ada != bo && ada != cy && bo != cy
    ensures
      var run := [Says(Here, bo, v[0]), Says(Here, cy, v[1]), Says(Here, bo, v[2]), Says(Left, bo, v[0])];
      var view := HearAll(NewView(ada, me), run, now);
      view.shown == [bo, cy] && Others(view.roster, ada) == [cy, bo]
  {
    var e0, e1, e2 := Entry(v[0], bo, now), Entry(v[1], cy, now), Entry(v[2], bo, now);
    var start := NewView(ada, me);
    var two := Hear(Hear(start, Says(Here, bo, v[0]), now), Says(Here, cy, v[1]), now);
    TwoHeard(start, ada, me, e0, e1, now);
    ThirdHeard(two, ada, me, e0, e1, e2, now);
    FirstGoes(Hear(two, Says(Here, bo, v[2]), now), ada, me, e0, e1, e2, now);
    HeardInTurn(start, Says(Here, bo, v[0]), Says(Here, cy, v[1]), Says(Here, bo, v[2]), Says(Left, bo, v[0]), now);
  }

  lemma TwoHeard(start: View, self: string, me: string, e0: Entry, e1: Entry, now: int)
    requires start == NewView(self, me) && GoodName(e0.member) && GoodName(e1.member) && e0.at == e1.at == now
    requires e0.viewer != me && e1.viewer != me && e0.viewer != e1.viewer
    requires self != e0.member && self != e1.member && e0.member != e1.member
    ensures Showing(Hear(Hear(start, Says(Here, e0.member, e0.viewer), now), Says(Here, e1.member, e1.viewer), now),
                    self, me, [e0, e1], [e0.member, e1.member])
  {
    FirstHeard(start, self, me, [], [], e0);
    assert [] + [e0] == [e0] && [] + [e0.member] == [e0.member];
    SecondHeard(Hear(start, Says(Here, e0.member, e0.viewer), now), self, me, e0, e1, now);
  }

  lemma SecondHeard(one: View, self: string, me: string, e0: Entry, e1: Entry, now: int)
    requires Showing(one, self, me, [e0], [e0.member]) && GoodName(e1.member) && e1.at == now
    requires e1.viewer != me && e1.viewer != e0.viewer && self != e1.member && e0.member != e1.member
    ensures Showing(Hear(one, Says(Here, e1.member, e1.viewer), now), self, me, [e0, e1], [e0.member, e1.member])
  {
    assert Members([e0]) == {e0.member};
    FirstHeard(one, self, me, [e0], [e0.member], e1);
    assert [e0] + [e1] == [e0, e1] && [e0.member] + [e1.member] == [e0.member, e1.member];
  }

  lemma ThirdHeard(two: View, self: string, me: string, e0: Entry, e1: Entry, e2: Entry, now: int)
    requires Showing(two, self, me, [e0, e1], [e0.member, e1.member]) && GoodName(e2.member) && e2.at == now
    requires e2.viewer != me && e2.viewer != e0.viewer && e2.viewer != e1.viewer && self != e2.member == e0.member
    ensures Showing(Hear(two, Says(Here, e2.member, e2.viewer), now), self, me, [e0, e1, e2], [e0.member, e1.member])
  {
    assert [e0, e1][0] in [e0, e1];
    FirstHeard(two, self, me, [e0, e1], [e0.member, e1.member], e2);
    assert [e0, e1] + [e2] == [e0, e1, e2] && [e0.member, e1.member] + [] == [e0.member, e1.member];
  }

  lemma FirstGoes(view: View, self: string, me: string, e0: Entry, e1: Entry, e2: Entry, now: int)
    requires Showing(view, self, me, [e0, e1, e2], [e0.member, e1.member]) && e0.viewer != me
    requires e0.viewer != e1.viewer && e0.viewer != e2.viewer && e0.member == e2.member != e1.member
    requires self != e0.member && self != e1.member
    ensures
      var next := Hear(view, Says(Left, e0.member, e0.viewer), now);
      next.shown == [e0.member, e1.member] && Others(next.roster, self) == [e1.member, e0.member]
  {
    WithoutFirst(e0, e1, e2);
    SecondFirst(e1, e2, self);
  }

  lemma WithoutFirst(e0: Entry, e1: Entry, e2: Entry)
    requires e0.viewer != e1.viewer && e0.viewer != e2.viewer && e0.member == e2.member
    ensures Without([e0, e1, e2], e0.viewer) == [e1, e2]
    ensures Members([e1, e2]) == Members([e0, e1, e2])
  {
    assert [e0, e1, e2][1..] == [e1, e2] && [e1, e2][1..] == [e2] && [e2][1..] == [];
    assert Without([e2], e0.viewer) == [e2];
    assert Without([e1, e2], e0.viewer) == [e1, e2];
    assert [e1, e2][0] in [e1, e2] && [e1, e2][1] in [e1, e2];
    forall e | e in [e0, e1, e2] ensures e.member in Members([e1, e2]) {
    }
    forall e | e in [e1, e2] ensures e in [e0, e1, e2] {
    }
  }

  lemma SecondFirst(e1: Entry, e2: Entry, self: string)
    requires e1.member != e2.member && self != e1.member && self != e2.member
    ensures Others([e1, e2], self) == [e1.member, e2.member]
  {
    assert [e1, e2][1..] == [e2] && [e2][1..] == [];
    assert Newcomers([e2], {self} + {e1.member}) == [e2.member];
  }

  lemma HeardInTurn(view: View, s0: Signal, s1: Signal, s2: Signal, s3: Signal, now: int)
    ensures HearAll(view, [s0, s1, s2, s3], now) == Hear(Hear(Hear(Hear(view, s0, now), s1, now), s2, now), s3, now)
  {
    assert [s0, s1, s2, s3][1..] == [s1, s2, s3] && [s1, s2, s3][1..] == [s2, s3] && [s2, s3][1..] == [s3];
    var one := Hear(view, s0, now);
    assert HearAll(one, [s1, s2, s3], now) == HearAll(Hear(one, s1, now), [s2, s3], now);
    var three := Hear(Hear(one, s1, now), s2, now);
    assert [s3][1..] == [] && HearAll(three, [s3], now) == Hear(three, s3, now);
  }

  // ---- the connection as the module keeps it ----

  class Connection {
    const member: string
    const viewer: string
    const roster: PresenceRoster
    var closed: bool
    var last: string
    var shown: seq<string>

    constructor (member: string, viewer: string)
      ensures fresh(roster) && Now() == NewView(member, viewer)
    {
      this.member, this.viewer := member, viewer;
      roster := new PresenceRoster();
      closed, last, shown := false, "", [];
    }

    ghost function Now(): View
      reads this, roster
    {
      View(member, viewer, roster.viewers, last, shown, closed)
    }

    // Hands the others over when the set of members moved.
    method Notify()
      modifies this`last, this`shown
      ensures Now() == Changed(old(Now()))
    {
      var others := roster.ListOthers(member);
      var key := Join(others, ",");
      if key != last {
        last := key;
        shown := others;
      }
    }

    // One event from the channel, and what is said back.
    method OnSignal(signal: Signal, now: int) returns (said: seq<Signal>)
      modifies this`last, this`shown, roster
      ensures Now() == Hear(old(Now()), signal, now)
      ensures said == Replies(old(Now()), signal)
    {
      said := [];
      if closed || signal.viewer == viewer {
        return;
      }
      var moved := roster.Record(signal, now);
      if moved {
        Notify();
      }
      if signal.kind == Here && signal.join {
        said := [Signal(Here, member, viewer, false)];
      }
    }

    // The heartbeat.
    method OnBeat(now: int) returns (said: seq<Signal>)
      modifies this`last, this`shown, roster
      ensures Now() == Beat(old(Now()), now)
      ensures said == [HereSignal(old(Now()), false)]
    {
      said := [Signal(Here, member, viewer, false)];
      var moved := roster.Sweep(now);
      if moved {
        Notify();
      }
    }

    // Closing says it left, once.
    method Close() returns (said: seq<Signal>)
      modifies this`closed
      ensures Now() == old(Now()).(closed := true)
      ensures said == if old(closed) then [] else [LeftSignal(old(Now()))]
    {
      said := [];
      if closed {
        return;
      }
      closed := true;
      said := [Signal(Left, member, viewer, false)];
    }
  }
}
