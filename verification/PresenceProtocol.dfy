// Any number of boards sharing a channel: joining, answering, beating and
// leaving, with signals delivered in any order that keeps each sender's own
// (apps/web/lib/board-presence.ts over the Realtime port).
module PresenceProtocol {
  import opened Text
  import opened PresenceRoster
  import opened BoardPresence

  // Subscribed but not yet announced; open; said it left; unsubscribed.
  datatype Phase = Joining | Open | Leaving | Gone

  datatype Board = Board(view: View, phase: Phase)

  // A signal on its way to one subscriber.
  datatype Packet = Packet(to: string, signal: Signal)

  // `subs` are the subscribers in the order they subscribed, `net` the packets
  // in the order they were published.
  datatype State = State(boards: map<string, Board>, subs: seq<string>, net: seq<Packet>)

  const NOBODY := State(map[], [], [])

  // ---- steps ----

  datatype Step =
    | Subscribe(id: string, member: string)
    | Announce(id: string)
    | Deliver(k: nat, now: int)
    | Heartbeat(id: string, now: int)
    | Close(id: string)
    | Unsubscribe(id: string)

  // A signal published to everybody subscribed at that moment.
  function Published(subs: seq<string>, signal: Signal): seq<Packet> {
    if subs == [] then [] else [Packet(subs[0], signal)] + Published(subs[1..], signal)
  }

  function PublishedAll(subs: seq<string>, signals: seq<Signal>): seq<Packet> {
    if signals == [] then [] else Published(subs, signals[0]) + PublishedAll(subs, signals[1..])
  }

  predicate In(s: State, id: string, phase: Phase) { id in s.boards && s.boards[id].phase == phase }

  predicate Listens(phase: Phase) { phase.Joining? || phase.Open? }

  // No earlier packet of the same sender waits for the same receiver.
  predicate IsNext(net: seq<Packet>, k: nat) {
    k < |net| && forall j | 0 <= j < k :: net[j].to != net[k].to || net[j].signal.viewer != net[k].signal.viewer
  }

  predicate Enabled(s: State, step: Step) {
    match step
    case Subscribe(id, member) => id !in s.boards && GoodName(member)
    case Announce(id) => In(s, id, Joining)
    case Deliver(k, _) => IsNext(s.net, k) && s.net[k].to in s.boards
    // The runs considered are those in which no board's heartbeats lapse.
    case Heartbeat(id, now) =>
      In(s, id, Open) && forall e | e in s.boards[id].view.roster :: !Expired(e, now)
    case Close(id) => In(s, id, Open)
    case Unsubscribe(id) => In(s, id, Leaving)
  }

  function Unsubscribed(subs: seq<string>, id: string): seq<string> {
    if subs == [] then [] else (if subs[0] == id then [] else [subs[0]]) + Unsubscribed(subs[1..], id)
  }

  function NotTo(net: seq<Packet>, id: string): seq<Packet> {
    if net == [] then [] else (if net[0].to == id then [] else [net[0]]) + NotTo(net[1..], id)
  }

  function Next(s: State, step: Step): State
    requires Enabled(s, step)
  {
    match step
    case Subscribe(id, member) =>
      State(s.boards[id := Board(NewView(member, id), Joining)], s.subs + [id], s.net)
    case Announce(id) =>
      var board := s.boards[id];
      State(s.boards[id := board.(phase := Open)], s.subs, s.net + Published(s.subs, HereSignal(board.view, true)))
    case Deliver(k, now) =>
      var p := s.net[k];
      var board := s.boards[p.to];
      State(s.boards[p.to := board.(view := Hear(board.view, p.signal, now))], s.subs,
            s.net[..k] + s.net[k + 1..] + PublishedAll(s.subs, Replies(board.view, p.signal)))
    case Heartbeat(id, now) =>
      var board := s.boards[id];
      State(s.boards[id := board.(view := Beat(board.view, now))], s.subs,
            s.net + Published(s.subs, HereSignal(board.view, false)))
    case Close(id) =>
      var board := s.boards[id];
      State(s.boards[id := Board(board.view.(closed := true), Leaving)], s.subs,
            s.net + Published(s.subs, LeftSignal(board.view)))
    case Unsubscribe(id) =>
      State(s.boards[id := s.boards[id].(phase := Gone)], Unsubscribed(s.subs, id), NotTo(s.net, id))
  }

  // ---- message handling stops ----

  // A join is worth one answer from every subscriber and itself; anything else
  // is worth itself.
  function Weight(net: seq<Packet>, subscribers: nat): nat {
    if net == [] then 0
    else (if net[0].signal.join then subscribers + 1 else 1) + Weight(net[1..], subscribers)
  }

  lemma {:induction false} WeightConcat(left: seq<Packet>, right: seq<Packet>, n: nat)
    ensures Weight(left + right, n) == Weight(left, n) + Weight(right, n)
  {
    if left == [] {
      assert left + right == right;
    } else {
      assert (left + right)[0] == left[0] && (left + right)[1..] == left[1..] + right;
      WeightConcat(left[1..], right, n);
    }
  }

  lemma {:induction false} WeightOfAnswer(subs: seq<string>, signal: Signal, n: nat)
    requires !signal.join
    ensures Weight(Published(subs, signal), n) == |subs|
  {
    if subs != [] {
      WeightOfAnswer(subs[1..], signal, n);
      var rest := Published(subs[1..], signal);
      assert ([Packet(subs[0], signal)] + rest)[1..] == rest;
    }
  }

  lemma WeightWithout(net: seq<Packet>, k: nat, n: nat)
    requires k < |net|
    ensures Weight(net, n) == Weight(net[..k] + net[k + 1..], n) + if net[k].signal.join then n + 1 else 1
  {
    assert net == net[..k] + ([net[k]] + net[k + 1..]);
    WeightConcat(net[..k], [net[k]] + net[k + 1..], n);
    WeightConcat([net[k]], net[k + 1..], n);
    WeightConcat(net[..k], net[k + 1..], n);
    assert [net[k]][1..] == [];
  }

  // Every delivery brings the work left down, whatever is answered.
  lemma DeliveryIsProgress(s: State, k: nat, now: int)
    requires Enabled(s, Deliver(k, now))
    ensures Next(s, Deliver(k, now)).subs == s.subs
    ensures Weight(Next(s, Deliver(k, now)).net, |s.subs|) < Weight(s.net, |s.subs|)
  {
    var p := s.net[k];
    var replies := Replies(s.boards[p.to].view, p.signal);
    var n := |s.subs|;
    WeightWithout(s.net, k, n);
    WeightConcat(s.net[..k] + s.net[k + 1..], PublishedAll(s.subs, replies), n);
    if replies != [] {
      WeightOfAnswer(s.subs, replies[0], n);
      assert PublishedAll(s.subs, replies) == Published(s.subs, replies[0]) + PublishedAll(s.subs, []);
      assert PublishedAll(s.subs, replies) == Published(s.subs, replies[0]);
    }
  }

  // A run of deliveries and nothing else.
  ghost predicate Delivers(s: State, steps: seq<Step>, t: State)
    decreases steps
  {
    if steps == [] then s == t
    else steps[0].Deliver? && Enabled(s, steps[0]) && Delivers(Next(s, steps[0]), steps[1..], t)
  }

  // However signals are delivered, handling them ends after a number of
  // deliveries that the state itself bounds.
  lemma {:induction false} HandlingStops(s: State, steps: seq<Step>, t: State)
    requires Delivers(s, steps, t)
    ensures t.subs == s.subs
    ensures |steps| + Weight(t.net, |s.subs|) <= Weight(s.net, |s.subs|)
    decreases steps
  {
    if steps != [] {
      DeliveryIsProgress(s, steps[0].k, steps[0].now);
      HandlingStops(Next(s, steps[0]), steps[1..], t);
    }
  }
}
