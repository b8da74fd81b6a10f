// A board's list of the boards beside it, and the signals it is kept by
// (packages/core/src/tasks/presence.ts).
module PresenceRoster {
  import opened Text

  datatype SignalKind = Here | Left

  // What a board tells the rest: that it is open, or that it has closed. With
  // `join` set it wants to hear who else is there.
  datatype Signal = Signal(kind: SignalKind, member: string, viewer: string, join: bool)

  const PRESENCE_EXPIRY_MS: nat := 50_000

  // ---- on the wire ----

  datatype Json = Str(text: string) | True | Junk

  datatype Event = Event(name: string, data: map<string, Json>)

  datatype Reading = Nothing | Read(signal: Signal)

  predicate IsHex(c: char) { IsDigit(c) || 'a' <= c <= 'f' || 'A' <= c <= 'F' }

  // Eight, four, four, four and twelve hexadecimal digits between hyphens.
  predicate IsUuid(s: string) {
    |s| == 36 && forall i | 0 <= i < 36 ::
      if i == 8 || i == 13 || i == 18 || i == 23 then s[i] == '-' else IsHex(s[i])
  }

  function EventOf(signal: Signal): Event {
    Event(if signal.kind == Here then "presence.here" else "presence.left",
          map["memberId" := Str(signal.member), "viewerId" := Str(signal.viewer)]
          + if signal.join then map["join" := True] else map[])
  }

  // A signal read back, or nothing for anything malformed.
  function ReadSignal(event: Event): Reading {
    if event.name != "presence.here" && event.name != "presence.left" then Nothing
    else if "memberId" !in event.data || "viewerId" !in event.data then Nothing
    else
      var member, viewer := event.data["memberId"], event.data["viewerId"];
      if !member.Str? || !viewer.Str? || !IsUuid(member.text) || !IsUuid(viewer.text) then Nothing
      else
        Read(Signal(if event.name == "presence.here" then Here else Left, member.text, viewer.text,
                    "join" in event.data && event.data["join"] == True))
  }

  // Every signal between well-formed identifiers survives the channel, and no
  // other signal gets through.
  lemma SignalRoundTrip(signal: Signal)
    ensures ReadSignal(EventOf(signal)) == Read(signal) <==> IsUuid(signal.member) && IsUuid(signal.viewer)
    ensures ReadSignal(EventOf(signal)) != Read(signal) ==> ReadSignal(EventOf(signal)) == Nothing
  {
    var event := EventOf(signal);
    assert event.data["memberId"] == Str(signal.member) && event.data["viewerId"] == Str(signal.viewer);
    assert "presence.here" != "presence.left" by {
      assert "presence.here"[9] != "presence.left"[9];
    }
    assert "join" != "memberId" && "join" != "viewerId" by {
      assert |"join"| == 4 && |"memberId"| == 8 && |"viewerId"| == 8;
    }
  }

  // ---- the roster as a value ----

  // One known board: whose it is and when it was last heard.
  datatype Entry = Entry(viewer: string, member: string, at: int)

  // In the order the boards were first heard.
  type Roster = seq<Entry>

  ghost predicate OneEach(roster: Roster) {
    forall i, j | 0 <= i < j < |roster| :: roster[i].viewer != roster[j].viewer
  }

  // An entry dropped, an entry refreshed where it stands, or one at the end.
  function Without(roster: Roster, viewer: string): (r: Roster)
    ensures |r| <= |roster|
  {
    if roster == [] then []
    else (if roster[0].viewer == viewer then [] else [roster[0]]) + Without(roster[1..], viewer)
  }

  function Refreshed(roster: Roster, entry: Entry): Roster {
    if roster == [] then [entry]
    else if roster[0].viewer == entry.viewer then [entry] + roster[1..]
    else [roster[0]] + Refreshed(roster[1..], entry)
  }

  function Note(roster: Roster, signal: Signal, at: int): Roster {
    if signal.kind == Left then Without(roster, signal.viewer)
    else Refreshed(roster, Entry(signal.viewer, signal.member, at))
  }

  predicate Expired(entry: Entry, at: int) { at - entry.at > PRESENCE_EXPIRY_MS }

  function Swept(roster: Roster, at: int): Roster {
    if roster == [] then []
    else (if Expired(roster[0], at) then [] else [roster[0]]) + Swept(roster[1..], at)
  }

  function Members(roster: Roster): set<string> { set e | e in roster :: e.member }

  // The members of a roster not seen before, each once, in order of arrival.
  function Newcomers(roster: Roster, seen: set<string>): (r: seq<string>)
    ensures forall m :: m in r <==> m in Members(roster) && m !in seen
    ensures forall i, j | 0 <= i < j < |r| :: r[i] != r[j]
  {
    if roster == [] then []
    else
      var m := roster[0].member;
      assert Members(roster) == {m} + Members(roster[1..]);
      if m in seen then Newcomers(roster[1..], seen)
      else [m] + Newcomers(roster[1..], seen + {m})
  }

  // Who is there besides `self`, each once.
  function Others(roster: Roster, self: string): seq<string> { Newcomers(roster, {self}) }

  // ---- what noting and sweeping do to who is known ----

  lemma {:induction false} WithoutExactly(roster: Roster, viewer: string)
    ensures forall e :: e in Without(roster, viewer) <==> e in roster && e.viewer != viewer
    ensures OneEach(roster) ==> OneEach(Without(roster, viewer))
  {
    if roster != [] {
      WithoutExactly(roster[1..], viewer);
      var rest := Without(roster[1..], viewer);
      if OneEach(roster) {
        assert forall j | 0 <= j < |rest| :: rest[j] in rest;
      }
    }
  }

  lemma {:induction false} RefreshedExactly(roster: Roster, entry: Entry)
    requires OneEach(roster)
    ensures OneEach(Refreshed(roster, entry))
    ensures forall e :: e in Refreshed(roster, entry) <==> e == entry || (e in roster && e.viewer != entry.viewer)
  {
    if roster != [] {
      if roster[0].viewer == entry.viewer {
        assert forall e | e in roster[1..] :: e.viewer != entry.viewer;
      } else {
        RefreshedExactly(roster[1..], entry);
        var rest := Refreshed(roster[1..], entry);
        assert forall j | 0 <= j < |rest| :: rest[j] in rest;
      }
    }
  }

  lemma {:induction false} SweptExactly(roster: Roster, at: int)
    ensures forall e :: e in Swept(roster, at) <==> e in roster && !Expired(e, at)
  {
    if roster != [] {
      SweptExactly(roster[1..], at);
    }
  }

  lemma {:induction false} SweptKeepsAll(roster: Roster, at: int)
    requires forall e | e in roster :: !Expired(e, at)
    ensures Swept(roster, at) == roster
  {
    if roster != [] {
      assert roster[0] in roster;
      SweptKeepsAll(roster[1..], at);
    }
  }

  // ---- the roster as the class keeps it ----

  class PresenceRoster {
    var viewers: Roster

    constructor ()
      ensures viewers == []
    {
      viewers := [];
    }

    // A signal taken in; the answer says whether it moved who is present.
    method Record(signal: Signal, at: int) returns (changed: bool)
      modifies this
      ensures viewers == Note(old(viewers), signal, at)
      ensures changed <==> Members(viewers) != Members(old(viewers))
    {
      var before := Members(viewers);
      if signal.kind == Left {
        viewers := Without(viewers, signal.viewer);
      } else {
        viewers := Refreshed(viewers, Entry(signal.viewer, signal.member, at));
      }
      changed := Members(viewers) != before;
    }

    // Entries not refreshed in time are dropped; the answer as above.
    method Sweep(at: int) returns (changed: bool)
      modifies this
      ensures viewers == Swept(old(viewers), at)
      ensures changed <==> Members(viewers) != Members(old(viewers))
    {
      var before := Members(viewers);
      var kept: Roster := [];
      var i := 0;
      while i < |viewers|
        invariant 0 <= i <= |viewers| && viewers == old(viewers)
        invariant kept + Swept(viewers[i..], at) == Swept(viewers, at)
      {
        assert viewers[i..][1..] == viewers[i + 1..];
        if !Expired(viewers[i], at) {
          Regroup(kept, [viewers[i]], Swept(viewers[i + 1..], at));
          kept := kept + [viewers[i]];
        } else {
          assert [] + Swept(viewers[i + 1..], at) == Swept(viewers[i + 1..], at);
        }
        i := i + 1;
      }
      viewers := kept;
      changed := Members(viewers) != before;
    }

    // The other members, each once, by when their first board was heard.
    method ListOthers(self: string) returns (others: seq<string>)
      ensures others == Others(viewers, self)
    {
      others := [];
      var seen := {self};
      var i := 0;
      while i < |viewers|
        invariant 0 <= i <= |viewers|
        invariant others + Newcomers(viewers[i..], seen) == Others(viewers, self)
      {
        assert viewers[i..][1..] == viewers[i + 1..];
        var m := viewers[i].member;
        if m !in seen {
          Regroup(others, [m], Newcomers(viewers[i + 1..], seen + {m}));
          others := others + [m];
          seen := seen + {m};
        }
        i := i + 1;
      }
    }
  }
}
