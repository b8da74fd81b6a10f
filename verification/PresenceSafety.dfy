// What holds in every run of the presence protocol, and what each board shows
// once the channel is quiet (apps/web/lib/board-presence.ts).
module PresenceSafety {
  import opened Text
  import opened PresenceRoster
  import opened BoardPresence
  import opened PresenceProtocol

  // ---- one sender's signals on their way to one receiver ----

  function Chan(net: seq<Packet>, to: string, from: string): seq<Signal> {
    if net == [] then []
    else (if net[0].to == to && net[0].signal.viewer == from then [net[0].signal] else []) + Chan(net[1..], to, from)
  }

  lemma {:induction false} ChanConcat(left: seq<Packet>, right: seq<Packet>, to: string, from: string)
    ensures Chan(left + right, to, from) == Chan(left, to, from) + Chan(right, to, from)
  {
    if left == [] {
      assert left + right == right;
    } else {
      assert (left + right)[0] == left[0] && (left + right)[1..] == left[1..] + right;
      ChanConcat(left[1..], right, to, from);
      Regroup(if left[0].to == to && left[0].signal.viewer == from then [left[0].signal] else [],
              Chan(left[1..], to, from), Chan(right, to, from));
    }
  }

  ghost predicate Distinct(subs: seq<string>) {
    forall i, j | 0 <= i < j < |subs| :: subs[i] != subs[j]
  }

  lemma {:induction false} ChanPublished(subs: seq<string>, signal: Signal, to: string, from: string)
    requires Distinct(subs)
    ensures Chan(Published(subs, signal), to, from) == if to in subs && from == signal.viewer then [signal] else []
  {
    if subs != [] {
      ChanPublished(subs[1..], signal, to, from);
      var first, rest := Packet(subs[0], signal), Published(subs[1..], signal);
      assert Published(subs, signal)[0] == first && Published(subs, signal)[1..] == rest;
    }
  }

  lemma {:induction false} ChanEmpty(net: seq<Packet>, to: string, from: string)
    requires forall p | p in net :: p.to != to || p.signal.viewer != from
    ensures Chan(net, to, from) == []
  {
    if net != [] {
      assert net[0] in net;
      ChanEmpty(net[1..], to, from);
    }
  }

  lemma ChanOfNext(net: seq<Packet>, k: nat, to: string, from: string)
    requires IsNext(net, k)
    ensures
      var mine := net[k].to == to && net[k].signal.viewer == from;
      Chan(net, to, from) == (if mine then [net[k].signal] else []) + Chan(net[..k] + net[k + 1..], to, from)
  {
    var before, after := net[..k], net[k + 1..];
    assert net == before + ([net[k]] + after);
    ChanConcat(before, [net[k]] + after, to, from);
    ChanConcat([net[k]], after, to, from);
    ChanConcat(before, after, to, from);
    assert [net[k]][1..] == [];
    if net[k].to == to && net[k].signal.viewer == from {
      ChanEmpty(before, to, from);
    }
  }

  lemma {:induction false} ChanNotTo(net: seq<Packet>, id: string, to: string, from: string)
    ensures Chan(NotTo(net, id), to, from) == if to == id then [] else Chan(net, to, from)
  {
    if net != [] {
      ChanNotTo(net[1..], id, to, from);
      var rest := NotTo(net[1..], id);
      if net[0].to != id {
        assert ([net[0]] + rest)[0] == net[0] && ([net[0]] + rest)[1..] == rest;
      } else {
        assert [] + rest == rest;
      }
    }
  }

  // ---- who a roster knows ----

  function Viewers(roster: Roster): set<string> { set e | e in roster :: e.viewer }

  lemma NoteViewers(roster: Roster, signal: Signal, at: int)
    requires OneEach(roster)
    ensures OneEach(Note(roster, signal, at))
    ensures Viewers(Note(roster, signal, at))
         == if signal.kind == Left then Viewers(roster) - {signal.viewer} else Viewers(roster) + {signal.viewer}
    ensures forall e | e in Note(roster, signal, at) ::
              (e in roster && e.viewer != signal.viewer)
                  || (signal.kind == Here && e == Entry(signal.viewer, signal.member, at))
  {
    var next := Note(roster, signal, at);
    if signal.kind == Left {
      WithoutExactly(roster, signal.viewer);
    } else {
      var entry := Entry(signal.viewer, signal.member, at);
      RefreshedExactly(roster, entry);
      assert entry in next;
    }
    forall v | v in Viewers(roster) && v != signal.viewer ensures v in Viewers(next) {
      var e :| e in roster && e.viewer == v;
      assert e in next;
    }
  }

  // ---- the invariant ----

  // Each board is who it says it is, and its roster names boards by their own
  // members and never itself.
  ghost predicate BoardOk(s: State, id: string)
    requires id in s.boards
  {
    var board := s.boards[id];
    && board.view.viewer == id && GoodName(board.view.member)
    && (board.view.closed <==> !Listens(board.phase))
    && OneEach(board.view.roster) && Current(board.view)
    && forall e | e in board.view.roster ::
         e.viewer != id && e.viewer in s.boards && e.member == s.boards[e.viewer].view.member
  }

  ghost predicate PacketOk(s: State, p: Packet) {
    && p.to in s.boards && (p.signal.join ==> p.signal.kind == Here)
    && p.signal.viewer in s.boards && p.signal.member == s.boards[p.signal.viewer].view.member
  }

  ghost predicate SubsOk(s: State) {
    && Distinct(s.subs)
    && forall id :: id in s.subs <==> id in s.boards && s.boards[id].phase != Gone
  }

  predicate HasJoin(signals: seq<Signal>) { exists m :: m in signals && m.join }

  predicate AllHere(signals: seq<Signal>) { forall m | m in signals :: m.kind == Here }

  // What one board has heard and will hear of another. A board still on the
  // channel has only said it is here. Of one that left, the last word still to
  // come is that it left, or it is already forgotten. And two open boards know
  // of each other, or will: a signal is on its way, or a join is on its way to
  // be answered.
  predicate PairOk(knows: bool, mine: Phase, theirs: Phase, toMe: seq<Signal>, fromMe: seq<Signal>) {
    && (Listens(theirs) ==> AllHere(toMe))
    && (!Listens(theirs) && Listens(mine) ==> if toMe == [] then !knows else toMe[|toMe| - 1].kind == Left)
    && (mine.Open? && theirs.Open? ==> knows || toMe != [] || HasJoin(fromMe))
  }

  ghost predicate PairOkIn(s: State, me: string, them: string)
    requires me in s.boards && them in s.boards
  {
    PairOk(them in Viewers(s.boards[me].view.roster), s.boards[me].phase, s.boards[them].phase,
           Chan(s.net, me, them), Chan(s.net, them, me))
  }

  ghost predicate Inv(s: State) {
    && SubsOk(s)
    && (forall id | id in s.boards :: BoardOk(s, id))
    && (forall p | p in s.net :: PacketOk(s, p))
    && (forall me, them | me in s.boards && them in s.boards && me != them :: PairOkIn(s, me, them))
  }

  // ---- pairs, one change at a time ----

  lemma SaidHere(knows: bool, mine: Phase, theirs: Phase, toMe: seq<Signal>, fromMe: seq<Signal>, m: Signal)
    requires PairOk(knows, mine, theirs, toMe, fromMe) && m.kind == Here && Listens(theirs)
    ensures PairOk(knows, mine, theirs, toMe + [m], fromMe)
    ensures mine.Joining? ==> PairOk(knows, mine, Open, toMe + [m], fromMe)
    ensures PairOk(knows, mine, Open, toMe + [m], fromMe)
  {
  }

  lemma SaidLeft(knows: bool, mine: Phase, theirs: Phase, toMe: seq<Signal>, fromMe: seq<Signal>, m: Signal)
    requires m.kind == Left
    ensures PairOk(knows, mine, Leaving, toMe + [m], fromMe)
  {
  }

  lemma ISaid(knows: bool, mine: Phase, theirs: Phase, toMe: seq<Signal>, fromMe: seq<Signal>, m: Signal)
    requires PairOk(knows, mine, theirs, toMe, fromMe)
    ensures PairOk(knows, mine, theirs, toMe, fromMe + [m])
    ensures mine.Joining? && m.join ==> PairOk(knows, Open, theirs, toMe, fromMe + [m])
  {
    if HasJoin(fromMe) {
      var j :| j in fromMe && j.join;
      assert j in fromMe + [m];
    }
    assert m in fromMe + [m];
  }

  // I hear the first of their signals.
  lemma IHeard(knows: bool, mine: Phase, theirs: Phase, m: Signal, rest: seq<Signal>, fromMe: seq<Signal>,
               knowsNow: bool)
    requires PairOk(knows, mine, theirs, [m] + rest, fromMe)
    requires knowsNow == if !Listens(mine) then knows else m.kind == Here
    ensures PairOk(knowsNow, mine, theirs, rest, fromMe)
  {
    var all := [m] + rest;
    assert m in all;
    if rest != [] {
      assert all[|all| - 1] == rest[|rest| - 1];
    } else {
      assert all[|all| - 1] == m;
    }
    assert forall x | x in rest :: x in all;
  }

  // They heard the first of mine, and answered if it asked them to.
  lemma TheyHeard(knows: bool, mine: Phase, theirs: Phase, toMe: seq<Signal>, m: Signal, rest: seq<Signal>,
                  answer: seq<Signal>)
    requires PairOk(knows, mine, theirs, toMe, [m] + rest)
    requires answer == [] || (|answer| == 1 && answer[0].kind == Here && Listens(theirs))
    requires Listens(theirs) && Listens(mine) && m.join && m.kind == Here ==> answer != []
    requires m.join ==> m.kind == Here
    ensures PairOk(knows, mine, theirs, toMe + answer, rest)
  {
    if answer == [] {
      assert toMe + answer == toMe;
    } else {
      assert answer == [answer[0]];
    }
    if HasJoin([m] + rest) && !m.join {
      var j :| j in [m] + rest && j.join;
      assert j in rest;
    }
  }

  // ---- every step keeps the invariant ----

  lemma {:induction false} PublishedPackets(subs: seq<string>, signal: Signal)
    ensures forall p | p in Published(subs, signal) :: p.signal == signal && p.to in subs
  {
    if subs != [] {
      PublishedPackets(subs[1..], signal);
    }
  }

  lemma ChanWith(s: State, signal: Signal, to: string, from: string)
    requires Distinct(s.subs)
    ensures Chan(s.net + Published(s.subs, signal), to, from)
         == Chan(s.net, to, from) + if to in s.subs && from == signal.viewer then [signal] else []
  {
    ChanConcat(s.net, Published(s.subs, signal), to, from);
    ChanPublished(s.subs, signal, to, from);
  }

  // Steps that leave every view's roster alone keep what concerns one board.
  lemma PacketsKept(s: State, next: State, signal: Signal)
    requires Inv(s) && signal.viewer in s.boards && signal.member == s.boards[signal.viewer].view.member
    requires signal.join ==> signal.kind == Here
    requires next.boards.Keys == s.boards.Keys
    requires forall id | id in s.boards :: next.boards[id].view.member == s.boards[id].view.member
    requires next.net == s.net + Published(s.subs, signal)
    ensures forall p | p in next.net :: PacketOk(next, p)
  {
    PublishedPackets(s.subs, signal);
    forall p | p in next.net ensures PacketOk(next, p) {
      assert p in s.net || p in Published(s.subs, signal);
      assert p in s.net ==> PacketOk(s, p);
    }
  }

  // One board speaks and may move to its next phase.
  ghost predicate Spoke(s: State, next: State, id: string, signal: Signal) {
    && id in s.boards && next.boards.Keys == s.boards.Keys && next.subs == s.subs
    && (forall b | b in s.boards && b != id :: next.boards[b] == s.boards[b])
    && next.boards[id].view == s.boards[id].view.(closed := next.boards[id].view.closed)
    && (next.boards[id].view.closed <==> !Listens(next.boards[id].phase))
    && signal.viewer == id && signal.member == s.boards[id].view.member && (signal.join ==> signal.kind == Here)
    && next.net == s.net + Published(s.subs, signal)
    && In(s, id, s.boards[id].phase) && s.boards[id].phase != Gone && next.boards[id].phase != Gone
  }

  lemma SpokeKeepsBoards(s: State, next: State, id: string, signal: Signal)
    requires Inv(s) && Spoke(s, next, id, signal)
    ensures SubsOk(next) && (forall b | b in next.boards :: BoardOk(next, b))
        && (forall p | p in next.net :: PacketOk(next, p))
  {
    forall b | b in next.boards ensures BoardOk(next, b) {
      assert BoardOk(s, b) && BoardOk(s, id);
    }
    PacketsKept(s, next, signal);
  }

  lemma AnnounceKeeps(s: State, id: string)
    requires Inv(s) && Enabled(s, Announce(id))
    ensures Inv(Next(s, Announce(id)))
  {
    var next := Next(s, Announce(id));
    var signal := HereSignal(s.boards[id].view, true);
    assert BoardOk(s, id);
    SpokeKeepsBoards(s, next, id, signal);
    forall me, them | me in next.boards && them in next.boards && me != them ensures PairOkIn(next, me, them) {
      assert PairOkIn(s, me, them);
      ChanWith(s, signal, me, them);
      ChanWith(s, signal, them, me);
      var knows := them in Viewers(s.boards[me].view.roster);
      var mine, theirs := s.boards[me].phase, s.boards[them].phase;
      var toMe, fromMe := Chan(s.net, me, them), Chan(s.net, them, me);
      if them == id {
        SaidHere(knows, mine, theirs, toMe, fromMe, signal);
      } else if me == id {
        ISaid(knows, mine, theirs, toMe, fromMe, signal);
      }
    }
  }

  lemma HeartbeatKeeps(s: State, id: string, now: int)
    requires Inv(s) && Enabled(s, Heartbeat(id, now))
    ensures Inv(Next(s, Heartbeat(id, now)))
  {
    var next := Next(s, Heartbeat(id, now));
    var signal := HereSignal(s.boards[id].view, false);
    assert BoardOk(s, id);
    SweptKeepsAll(s.boards[id].view.roster, now);
    SpokeKeepsBoards(s, next, id, signal);
    forall me, them | me in next.boards && them in next.boards && me != them ensures PairOkIn(next, me, them) {
      assert PairOkIn(s, me, them);
      ChanWith(s, signal, me, them);
      ChanWith(s, signal, them, me);
      var knows := them in Viewers(s.boards[me].view.roster);
      var mine, theirs := s.boards[me].phase, s.boards[them].phase;
      var toMe, fromMe := Chan(s.net, me, them), Chan(s.net, them, me);
      if them == id {
        SaidHere(knows, mine, theirs, toMe, fromMe, signal);
      } else if me == id {
        ISaid(knows, mine, theirs, toMe, fromMe, signal);
      }
    }
  }

  lemma CloseKeeps(s: State, id: string)
    requires Inv(s) && Enabled(s, Close(id))
    ensures Inv(Next(s, Close(id)))
  {
    var next := Next(s, Close(id));
    var signal := LeftSignal(s.boards[id].view);
    assert BoardOk(s, id);
    SpokeKeepsBoards(s, next, id, signal);
    forall me, them | me in next.boards && them in next.boards && me != them ensures PairOkIn(next, me, them) {
      assert PairOkIn(s, me, them);
      ChanWith(s, signal, me, them);
      ChanWith(s, signal, them, me);
      var knows := them in Viewers(s.boards[me].view.roster);
      var mine, theirs := s.boards[me].phase, s.boards[them].phase;
      var toMe, fromMe := Chan(s.net, me, them), Chan(s.net, them, me);
      if them == id && me in s.subs {
        SaidLeft(knows, mine, theirs, toMe, fromMe, signal);
      }
    }
  }

  lemma SubscribeKeeps(s: State, id: string, member: string)
    requires Inv(s) && Enabled(s, Subscribe(id, member))
    ensures Inv(Next(s, Subscribe(id, member)))
  {
    var next := Next(s, Subscribe(id, member));
    assert SubsOk(next) by {
      assert id !in s.subs;
    }
    forall b | b in next.boards ensures BoardOk(next, b) {
      if b == id {
        assert Members([]) == {};
      } else {
        assert BoardOk(s, b);
      }
    }
    forall p | p in next.net ensures PacketOk(next, p) {
      assert PacketOk(s, p);
    }
    forall me, them | me in next.boards && them in next.boards && me != them ensures PairOkIn(next, me, them) {
      if me == id || them == id {
        forall p | p in s.net ensures p.to != id && p.signal.viewer != id {
          assert PacketOk(s, p);
        }
        ChanEmpty(s.net, me, them);
        ChanEmpty(s.net, them, me);
        assert me != id ==> BoardOk(s, me);
      } else {
        assert PairOkIn(s, me, them);
      }
    }
  }

  lemma {:induction false} UnsubscribedExactly(subs: seq<string>, id: string)
    ensures forall x :: x in Unsubscribed(subs, id) <==> x in subs && x != id
    ensures Distinct(subs) ==> Distinct(Unsubscribed(subs, id))
  {
    if subs != [] {
      UnsubscribedExactly(subs[1..], id);
      var rest := Unsubscribed(subs[1..], id);
      if Distinct(subs) {
        assert forall j | 0 <= j < |rest| :: rest[j] in rest;
      }
    }
  }

  lemma {:induction false} NotToExactly(net: seq<Packet>, id: string)
    ensures forall p | p in NotTo(net, id) :: p in net
  {
    if net != [] {
      NotToExactly(net[1..], id);
    }
  }

  lemma UnsubscribeKeepsBoards(s: State, id: string)
    requires Inv(s) && Enabled(s, Unsubscribe(id))
    ensures
      var next := Next(s, Unsubscribe(id));
      SubsOk(next) && (forall b | b in next.boards :: BoardOk(next, b)) && forall p | p in next.net :: PacketOk(next, p)
  {
    var next := Next(s, Unsubscribe(id));
    UnsubscribedExactly(s.subs, id);
    NotToExactly(s.net, id);
    forall b | b in next.boards ensures BoardOk(next, b) {
      assert BoardOk(s, b);
    }
    forall p | p in next.net ensures PacketOk(next, p) {
      assert PacketOk(s, p);
    }
  }

  lemma UnsubscribeKeepsPair(s: State, id: string, me: string, them: string)
    requires Inv(s) && Enabled(s, Unsubscribe(id)) && me in s.boards && them in s.boards && me != them
    ensures PairOkIn(Next(s, Unsubscribe(id)), me, them)
  {
    assert PairOkIn(s, me, them);
    ChanNotTo(s.net, id, me, them);
    ChanNotTo(s.net, id, them, me);
  }

  lemma UnsubscribeKeeps(s: State, id: string)
    requires Inv(s) && Enabled(s, Unsubscribe(id))
    ensures Inv(Next(s, Unsubscribe(id)))
  {
    var next := Next(s, Unsubscribe(id));
    UnsubscribeKeepsBoards(s, id);
    forall me, them | me in next.boards && them in next.boards && me != them ensures PairOkIn(next, me, them) {
      UnsubscribeKeepsPair(s, id, me, them);
    }
  }

  // ---- delivery ----

  lemma ChanAfterDelivery(s: State, k: nat, now: int, to: string, from: string)
    requires Inv(s) && Enabled(s, Deliver(k, now))
    ensures
      var p := s.net[k];
      var replies := Replies(s.boards[p.to].view, p.signal);
      var rest := Chan(s.net[..k] + s.net[k + 1..], to, from);
      && Chan(s.net, to, from) == (if p.to == to && p.signal.viewer == from then [p.signal] else []) + rest
      && Chan(Next(s, Deliver(k, now)).net, to, from) == rest + if to in s.subs && from == p.to then replies else []
  {
    var p := s.net[k];
    var replies := Replies(s.boards[p.to].view, p.signal);
    var left := s.net[..k] + s.net[k + 1..];
    ChanOfNext(s.net, k, to, from);
    ChanConcat(left, PublishedAll(s.subs, replies), to, from);
    assert BoardOk(s, p.to);
    if replies != [] {
      assert PublishedAll(s.subs, replies) == Published(s.subs, replies[0]) + PublishedAll(s.subs, []);
      assert PublishedAll(s.subs, replies) == Published(s.subs, replies[0]);
      ChanPublished(s.subs, replies[0], to, from);
    }
  }

  lemma DeliveryKeepsBoard(s: State, k: nat, now: int)
    requires Inv(s) && Enabled(s, Deliver(k, now))
    ensures
      var p := s.net[k];
      var view := s.boards[p.to].view;
      var heard := Hear(view, p.signal, now);
      && heard.member == view.member && heard.viewer == view.viewer && heard.closed == view.closed
      && OneEach(heard.roster) && Current(heard)
      && (forall e | e in heard.roster ::
            e.viewer != p.to && e.viewer in s.boards && e.member == s.boards[e.viewer].view.member)
      && Viewers(heard.roster) == (if Ignores(view, p.signal) then Viewers(view.roster)
                                   else if p.signal.kind == Left then Viewers(view.roster) - {p.signal.viewer}
                                   else Viewers(view.roster) + {p.signal.viewer})
  {
    var p := s.net[k];
    var view := s.boards[p.to].view;
    assert p in s.net && PacketOk(s, p) && BoardOk(s, p.to);
    if !Ignores(view, p.signal) {
      NoteViewers(view.roster, p.signal, now);
      var roster := Note(view.roster, p.signal, now);
      forall e | e in roster ensures GoodName(e.member) {
        assert e in view.roster || e.viewer == p.signal.viewer;
        assert BoardOk(s, e.viewer);
      }
      StaysCurrent(view, roster);
    }
  }

  lemma DeliveryKeepsBoards(s: State, k: nat, now: int)
    requires Inv(s) && Enabled(s, Deliver(k, now))
    ensures
      var next := Next(s, Deliver(k, now));
      SubsOk(next) && forall b | b in next.boards :: BoardOk(next, b)
  {
    var next := Next(s, Deliver(k, now));
    DeliveryKeepsBoard(s, k, now);
    assert BoardOk(s, s.net[k].to);
    forall b | b in next.boards ensures BoardOk(next, b) {
      assert BoardOk(s, b);
    }
  }

  lemma DeliveryKeepsPackets(s: State, k: nat, now: int)
    requires Inv(s) && Enabled(s, Deliver(k, now))
    ensures
      var next := Next(s, Deliver(k, now));
      forall p | p in next.net :: PacketOk(next, p)
  {
    var next := Next(s, Deliver(k, now));
    var p := s.net[k];
    var replies := Replies(s.boards[p.to].view, p.signal);
    DeliveryKeepsBoard(s, k, now);
    assert BoardOk(s, p.to);
    assert replies != [] ==>
        PublishedAll(s.subs, replies) == Published(s.subs, replies[0]) + PublishedAll(s.subs, replies[1..]);
    if replies != [] {
      PublishedPackets(s.subs, replies[0]);
      assert replies[1..] == [];
    }
    forall q | q in next.net ensures PacketOk(next, q) {
      assert q in s.net || q in PublishedAll(s.subs, replies);
      assert q in s.net ==> PacketOk(s, q);
    }
  }

  lemma DeliveryAtReceiver(s: State, k: nat, now: int, me: string, them: string)
    requires Inv(s) && Enabled(s, Deliver(k, now))
    requires me in s.boards && them in s.boards && me != them && s.net[k].to == me
    ensures PairOkIn(Next(s, Deliver(k, now)), me, them)
  {
    var p := s.net[k];
    var view := s.boards[me].view;
    assert PairOkIn(s, me, them) && BoardOk(s, me);
    ChanAfterDelivery(s, k, now, me, them);
    ChanAfterDelivery(s, k, now, them, me);
    DeliveryKeepsBoard(s, k, now);
    var left := s.net[..k] + s.net[k + 1..];
    PairAtReceiver(them in Viewers(view.roster), s.boards[me].phase, s.boards[them].phase,
                   p.signal, p.signal.viewer == them, Chan(left, me, them), Chan(left, them, me),
                   if them in s.subs then Replies(view, p.signal) else [],
                   them in Viewers(Hear(view, p.signal, now).roster));
  }

  lemma DeliveryAtSender(s: State, k: nat, now: int, me: string, them: string)
    requires Inv(s) && Enabled(s, Deliver(k, now))
    requires me in s.boards && them in s.boards && me != them && s.net[k].to == them
    ensures PairOkIn(Next(s, Deliver(k, now)), me, them)
  {
    var p := s.net[k];
    assert PairOkIn(s, me, them) && BoardOk(s, them) && PacketOk(s, p);
    ChanAfterDelivery(s, k, now, me, them);
    ChanAfterDelivery(s, k, now, them, me);
    var left := s.net[..k] + s.net[k + 1..];
    PairAtSender(them in Viewers(s.boards[me].view.roster), s.boards[me].phase, s.boards[them].phase,
                 p.signal, p.signal.viewer == me, Chan(left, me, them), Chan(left, them, me),
                 if me in s.subs then Replies(s.boards[them].view, p.signal) else []);
  }

  lemma DeliveryElsewhere(s: State, k: nat, now: int, me: string, them: string)
    requires Inv(s) && Enabled(s, Deliver(k, now))
    requires me in s.boards && them in s.boards && me != them && s.net[k].to != me && s.net[k].to != them
    ensures PairOkIn(Next(s, Deliver(k, now)), me, them)
  {
    assert PairOkIn(s, me, them);
    ChanAfterDelivery(s, k, now, me, them);
    ChanAfterDelivery(s, k, now, them, me);
  }

  lemma DeliveryKeepsPair(s: State, k: nat, now: int, me: string, them: string)
    requires Inv(s) && Enabled(s, Deliver(k, now))
    requires me in s.boards && them in s.boards && me != them
    ensures PairOkIn(Next(s, Deliver(k, now)), me, them)
  {
    if s.net[k].to == me {
      DeliveryAtReceiver(s, k, now, me, them);
    } else if s.net[k].to == them {
      DeliveryAtSender(s, k, now, me, them);
    } else {
      DeliveryElsewhere(s, k, now, me, them);
    }
  }

  // The receiver's side: one signal fewer to hear, perhaps one answer more said.
  lemma PairAtReceiver(
      knows: bool, mine: Phase, theirs: Phase, m: Signal, fromThem: bool, toMe: seq<Signal>, fromMe: seq<Signal>,
      answer: seq<Signal>, knowsNow: bool)
    requires PairOk(knows, mine, theirs, (if fromThem then [m] else []) + toMe, fromMe)
    requires knowsNow == if fromThem && Listens(mine) then m.kind == Here else knows
    requires answer == [] || answer == [answer[0]]
    ensures PairOk(knowsNow, mine, theirs, toMe, fromMe + answer)
  {
    if fromThem {
      IHeard(knows, mine, theirs, m, toMe, fromMe, knowsNow);
    } else {
      assert [] + toMe == toMe;
    }
    if answer == [] {
      assert fromMe + [] == fromMe;
    } else {
      ISaid(knowsNow, mine, theirs, toMe, fromMe, answer[0]);
    }
  }

  // The other side: one of my signals heard, perhaps one answer more to hear.
  lemma PairAtSender(
      knows: bool, mine: Phase, theirs: Phase, m: Signal, fromMeNow: bool, toMe: seq<Signal>, fromMe: seq<Signal>,
      answer: seq<Signal>)
    requires PairOk(knows, mine, theirs, toMe, (if fromMeNow then [m] else []) + fromMe)
    requires answer == [] || (answer == [answer[0]] && answer[0].kind == Here && Listens(theirs))
    requires fromMeNow && Listens(theirs) && Listens(mine) && m.join && m.kind == Here ==> answer != []
    requires m.join ==> m.kind == Here
    ensures PairOk(knows, mine, theirs, toMe + answer, fromMe)
  {
    if fromMeNow {
      TheyHeard(knows, mine, theirs, toMe, m, fromMe, answer);
    } else {
      assert [] + fromMe == fromMe;
      if answer == [] {
        assert toMe + [] == toMe;
      } else {
        SaidHere(knows, mine, theirs, toMe, fromMe, answer[0]);
      }
    }
  }

  lemma DeliverKeeps(s: State, k: nat, now: int)
    requires Inv(s) && Enabled(s, Deliver(k, now))
    ensures Inv(Next(s, Deliver(k, now)))
  {
    DeliveryKeepsBoards(s, k, now);
    DeliveryKeepsPackets(s, k, now);
    forall me, them | me in s.boards && them in s.boards && me != them
      ensures PairOkIn(Next(s, Deliver(k, now)), me, them)
    {
      DeliveryKeepsPair(s, k, now, me, them);
    }
  }

  lemma StepKeeps(s: State, step: Step)
    requires Inv(s) && Enabled(s, step)
    ensures Inv(Next(s, step))
  {
    match step
    case Subscribe(id, member) => SubscribeKeeps(s, id, member);
    case Announce(id) => AnnounceKeeps(s, id);
    case Deliver(k, now) => DeliverKeeps(s, k, now);
    case Heartbeat(id, now) => HeartbeatKeeps(s, id, now);
    case Close(id) => CloseKeeps(s, id);
    case Unsubscribe(id) => UnsubscribeKeeps(s, id);
  }

  // ---- whole runs ----

  // A run from nobody on the channel.
  ghost predicate Reaches(from: State, steps: seq<Step>, to: State)
    decreases steps
  {
    if steps == [] then from == to
    else Enabled(from, steps[0]) && Reaches(Next(from, steps[0]), steps[1..], to)
  }

  lemma {:induction false} RunKeeps(from: State, steps: seq<Step>, to: State)
    requires Inv(from) && Reaches(from, steps, to)
    ensures Inv(to)
    decreases steps
  {
    if steps != [] {
      StepKeeps(from, steps[0]);
      RunKeeps(Next(from, steps[0]), steps[1..], to);
    }
  }

  // Handling only ever stops on an empty channel: the oldest signal can always
  // be delivered.
  lemma OldestIsNext(steps: seq<Step>, s: State, now: int)
    requires Reaches(NOBODY, steps, s) && s.net != []
    ensures Enabled(s, Deliver(0, now))
  {
    RunKeeps(NOBODY, steps, s);
    assert s.net[0] in s.net && PacketOk(s, s.net[0]);
  }

  // No signal is left for a board still on the channel.
  ghost predicate Quiet(s: State) {
    forall p | p in s.net && p.to in s.boards :: !Listens(s.boards[p.to].phase)
  }

  // In every run of any number of boards, once the channel is quiet each open
  // board knows every other open board, knows only boards still on the channel,
  // and the last list it handed over names exactly the members it knows of,
  // its own aside.
  lemma QuietRostersAreRight(steps: seq<Step>, s: State, me: string)
    requires Reaches(NOBODY, steps, s) && Quiet(s) && In(s, me, Open)
    ensures
      var known := Viewers(s.boards[me].view.roster);
      && (forall them | In(s, them, Open) && them != me :: them in known)
      && (forall them | them in known :: them != me && them in s.boards && Listens(s.boards[them].phase))
      && ((forall id | id in s.boards :: s.boards[id].phase != Joining) ==>
            known == set them | them in s.boards && s.boards[them].phase == Open && them != me)
      && (forall m :: m in s.boards[me].view.shown <==>
            m != s.boards[me].view.member && exists them :: them in known && s.boards[them].view.member == m)
  {
    RunKeeps(NOBODY, steps, s);
    assert BoardOk(s, me);
    var view := s.boards[me].view;
    forall them | In(s, them, Open) && them != me ensures them in Viewers(view.roster) {
      QuietPair(s, me, them);
    }
    forall them | them in Viewers(view.roster) ensures them != me && them in s.boards && Listens(s.boards[them].phase) {
      var e :| e in view.roster && e.viewer == them;
      QuietPair(s, me, them);
    }
    MembersOfViewers(s, view.roster);
  }

  lemma QuietPair(s: State, me: string, them: string)
    requires Inv(s) && Quiet(s) && In(s, me, Open) && them in s.boards && them != me
    ensures !Listens(s.boards[them].phase) ==> them !in Viewers(s.boards[me].view.roster)
    ensures s.boards[them].phase == Open ==> them in Viewers(s.boards[me].view.roster)
  {
    assert PairOkIn(s, me, them);
    ChanEmpty(s.net, me, them);
    if s.boards[them].phase == Open {
      ChanEmpty(s.net, them, me);
    }
  }

  lemma MembersOfViewers(s: State, roster: Roster)
    requires forall e | e in roster :: e.viewer in s.boards && e.member == s.boards[e.viewer].view.member
    ensures forall v | v in Viewers(roster) :: v in s.boards
    ensures forall m :: (m in Members(roster)
                         <==> exists them :: them in Viewers(roster) && s.boards[them].view.member == m)
  {
    forall m | m in Members(roster) ensures exists them :: them in Viewers(roster) && s.boards[them].view.member == m {
      var e :| e in roster && e.member == m;
      assert e.viewer in Viewers(roster);
    }
  }
}
