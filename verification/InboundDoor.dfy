// What a channel endpoint does with one request, and over a run of them
// (apps/web/lib/channel-inbound.ts, runInbound and refuse; the steps it hands
// to packages/core/src/channels/inbound.ts, resolveInbound).
module InboundDoor {
  import opened Text

  datatype Reason = NoTenant | UnknownTenant | NoConnection | FailedVerification

  datatype Response = Response(status: int, body: string)

  const SILENCE := Response(200, "")
  const REFUSED := Response(401, "")
  const REFUSAL_FLOOR_MS := 250

  datatype Message = Message(sender: string, text: string)

  // One delivery, as the log of received messages keys it.
  datatype Delivery = Delivery(provider: string, workspace: string, id: string)

  // What the endpoint, the database and the driver answer while one request is
  // served. An optional hook an endpoint does not have is None.
  datatype Facts = Facts(
    provider: string,
    startedAt: int,             // the clock when the request arrived
    now: int,                   // and when a refusal looks at it again
    late: nat,                  // by how much a timer fires late
    first: Option<bool>,        // verifyFirst
    tenant: Option<string>,     // tenantOf
    workspace: Option<string>,  // workspaceForProviderTeam
    connected: bool,            // openConnection found one
    built: bool,                // buildDriver made a driver of it
    verified: bool,             // verifyInbound
    short: Option<Option<Response>>,  // beforeMessage
    remembers: bool,            // the endpoint has remember
    message: Option<Message>,   // parseInbound
    delivery: Option<string>,   // deliveryId
    links: bool,                // the text is a link code that is still good
    identity: Option<bool>,     // the sender's identity, and whether verified
    member: Option<Option<string>>,   // the active member, and its user
    allowed: bool,              // withinRateLimit
    instead: Option<bool>,      // the hook that may answer with a form
    instance: string,           // getInstanceName
    help: string,               // helpText
    answer: string)             // routeCommand

  // ---- the order, as data ----

  datatype Step =
    | ReadBody | VerifyFirst | ReadTenant | FindWorkspace | OpenConnection | BuildDriver | Verify
    | BeforeMessage | Remember | Parse | ReadDelivery
    | RecordDelivery | ConsumeCode | FindIdentity | FindMember | OpenWindow | CheckRate | NameMember
    | Instead | Route

  const STEPS := 20

  function Nth(k: nat): Step
    requires k < STEPS
  {
    match k
    case 0 => ReadBody case 1 => VerifyFirst case 2 => ReadTenant case 3 => FindWorkspace
    case 4 => OpenConnection case 5 => BuildDriver case 6 => Verify case 7 => BeforeMessage
    case 8 => Remember case 9 => Parse case 10 => ReadDelivery case 11 => RecordDelivery
    case 12 => ConsumeCode case 13 => FindIdentity case 14 => FindMember case 15 => OpenWindow
    case 16 => CheckRate case 17 => NameMember case 18 => Instead case _ => Route
  }

  // What the outside world can see being done, in order.
  datatype Effect = Did(step: Step) | Counted(reason: Reason) | Waited(ms: int) | Sent(to: string, note: Note)

  // How a request can end: what is counted, what is answered, what is sent.
  datatype Ending = Ending(counted: Option<Reason>, response: Response, reply: Option<Note>)

  const QUIET := Ending(None, SILENCE, None)

  function Refusal(reason: Reason): Ending { Ending(Some(reason), REFUSED, None) }

  predicate Missing(s: Option<string>) { s == None || s == Some("") }

  function DeliveryOf(f: Facts): Delivery
  {
    if f.workspace.Some? && f.delivery.Some? then Delivery(f.provider, f.workspace.value, f.delivery.value)
    else Delivery(f.provider, "", "")
  }

  // What may be sent back: one of two fixed texts, neither of them blank, or
  // whatever the router answers.
  datatype Note = SlowDown | LinkedTo(instance: string, help: string) | Answer(text: string)

  predicate Blank(note: Note) { note.Answer? && Trim(note.text) == "" }

  // Whether a step takes place when the request gets that far.
  predicate Present(f: Facts, s: Step) {
    match s
    case VerifyFirst => f.first.Some?
    case BeforeMessage => f.short.Some?
    case Remember => f.remembers
    case Instead => f.instead.Some?
    case _ => true
  }

  // Whether a request that got as far as a step ends there, and how.
  function EndsAt(f: Facts, seen: set<Delivery>, s: Step): Option<Ending> {
    match s
    case VerifyFirst => if f.first == Some(false) then Some(Refusal(FailedVerification)) else None
    case ReadTenant => if Missing(f.tenant) then Some(Ending(Some(NoTenant), SILENCE, None)) else None
    case FindWorkspace => if Missing(f.workspace) then Some(Refusal(UnknownTenant)) else None
    case OpenConnection => if !f.connected then Some(Refusal(NoConnection)) else None
    case BuildDriver => if !f.built then Some(Refusal(NoConnection)) else None
    case Verify => if !f.verified then Some(Refusal(FailedVerification)) else None
    case BeforeMessage =>
      if f.short.Some? && f.short.value.Some? then Some(Ending(None, f.short.value.value, None)) else None
    case ReadDelivery => if f.message == None || Missing(f.delivery) then Some(QUIET) else None
    case RecordDelivery => if DeliveryOf(f) in seen then Some(QUIET) else None
    case ConsumeCode => if f.links then Some(Ending(None, SILENCE, Some(LinkedTo(f.instance, f.help)))) else None
    case FindIdentity => if f.identity != Some(true) then Some(QUIET) else None
    case FindMember => if f.member == None then Some(QUIET) else None
    case CheckRate => if !f.allowed then Some(Ending(None, SILENCE, Some(SlowDown))) else None
    case NameMember => if f.member.Some? && Missing(f.member.value) then Some(QUIET) else None
    case Instead => if f.instead == Some(true) then Some(QUIET) else None
    case Route => Some(Ending(None, SILENCE, Some(Answer(f.answer))))
    case _ => None
  }

  function Rank(s: Step): (k: nat)
    ensures k < STEPS && Nth(k) == s
  {
    match s
    case ReadBody => 0 case VerifyFirst => 1 case ReadTenant => 2 case FindWorkspace => 3
    case OpenConnection => 4 case BuildDriver => 5 case Verify => 6 case BeforeMessage => 7
    case Remember => 8 case Parse => 9 case ReadDelivery => 10 case RecordDelivery => 11
    case ConsumeCode => 12 case FindIdentity => 13 case FindMember => 14 case OpenWindow => 15
    case CheckRate => 16 case NameMember => 17 case Instead => 18 case Route => 19
  }

  lemma RankIsPlace(k: nat)
    requires k < STEPS
    ensures Rank(Nth(k)) == k
  {
  }

  // The first step a request ends at. Every request ends, at the latest when
  // it is routed.
  // (A measure that names `f` keeps calls with a literal from being unfolded to
  // their end; so below.)
  function LastStep(f: Facts, seen: set<Delivery>, from: nat := 0): (k: nat)
    requires from < STEPS
    ensures from <= k < STEPS && EndsAt(f, seen, Nth(k)).Some?
    ensures forall i | from <= i < k :: EndsAt(f, seen, Nth(i)) == None
    decreases STEPS - from, f
  {
    if EndsAt(f, seen, Nth(from)).Some? then from
    else
      assert Nth(from) != Route;
      LastStep(f, seen, from + 1)
  }

  // None of the first n steps ends the request.
  ghost predicate Open(f: Facts, seen: set<Delivery>, n: nat)
    requires n <= STEPS
    decreases n, f
  {
    n == 0 || (Open(f, seen, n - 1) && EndsAt(f, seen, Nth(n - 1)) == None)
  }

  lemma {:induction false} OpenEach(f: Facts, seen: set<Delivery>, n: nat)
    requires n <= STEPS
    ensures Open(f, seen, n) <==> forall i | 0 <= i < n :: EndsAt(f, seen, Nth(i)) == None
  {
    if n > 0 {
      OpenEach(f, seen, n - 1);
    }
  }

  lemma StopsHere(f: Facts, seen: set<Delivery>, s: Step)
    requires Open(f, seen, Rank(s)) && EndsAt(f, seen, s).Some?
    ensures LastStep(f, seen) == Rank(s)
  {
    OpenEach(f, seen, Rank(s));
    var k := LastStep(f, seen);
    assert EndsAt(f, seen, Nth(k)).Some?;
  }

  function EndingOf(f: Facts, seen: set<Delivery>): Ending {
    EndsAt(f, seen, Nth(LastStep(f, seen))).value
  }

  // The steps that took place among the first n.
  function Steps(f: Facts, n: nat): seq<Effect>
    requires n <= STEPS
    decreases n, f
  {
    if n == 0 then []
    else Steps(f, n - 1) + (if Present(f, Nth(n - 1)) then [Did(Nth(n - 1))] else [])
  }

  predicate Refuses(e: Ending) { e.counted.Some? && e.response == REFUSED }

  function Remaining(f: Facts): int { f.startedAt + REFUSAL_FLOOR_MS - f.now }

  // What closing a request does: a refusal is counted and padded to the floor,
  // a reply that is not blank is sent.
  function Closing(f: Facts, e: Ending): seq<Effect> {
    (if e.counted.Some? then [Counted(e.counted.value)] else [])
    + (if Refuses(e) && Remaining(f) > 0 then [Waited(Remaining(f))] else [])
    + (if e.reply.Some? && f.message.Some? && !Blank(e.reply.value)
       then [Sent(f.message.value.sender, e.reply.value)] else [])
  }

  function Tally(e: Ending): multiset<Reason> {
    if e.counted.Some? then multiset{e.counted.value} else multiset{}
  }

  function Trace(f: Facts, seen: set<Delivery>): seq<Effect> {
    Steps(f, LastStep(f, seen) + 1) + Closing(f, EndingOf(f, seen))
  }

  // When a refusal is answered.
  function AnsweredAt(f: Facts): int {
    if Remaining(f) > 0 then f.now + Remaining(f) + f.late else f.now
  }

  function SeenAfter(f: Facts, seen: set<Delivery>): set<Delivery> {
    if LastStep(f, seen) >= Rank(RecordDelivery) then seen + {DeliveryOf(f)} else seen
  }

  // ---- how far a request has come ----

  // The log has come to the first n steps, and none of them ended the request.
  ghost predicate Passed(log: seq<Effect>, f: Facts, was: set<Delivery>, before: seq<Effect>, n: nat)
    requires n <= STEPS
  {
    log == before + Steps(f, n) && Open(f, was, n)
  }

  // The log has come to the step the request ends at.
  ghost predicate Stopped(log: seq<Effect>, seen: set<Delivery>, f: Facts, was: set<Delivery>, before: seq<Effect>,
                          s: Step, e: Ending)
  {
    && EndsAt(f, was, s) == Some(e) && LastStep(f, was) == Rank(s)
    && log == before + Steps(f, Rank(s) + 1)
    && seen == if Rank(s) >= Rank(RecordDelivery) then was + {DeliveryOf(f)} else was
  }

  // The request is over, with everything the order says of it: what was
  // done, counted, remembered and answered.
  ghost predicate Served(log: seq<Effect>, seen: set<Delivery>, refusals: multiset<Reason>, f: Facts,
                         was: set<Delivery>, counts: multiset<Reason>, before: seq<Effect>,
                         response: Response, at: int)
  {
    var e := EndingOf(f, was);
    && response == e.response
    && log == before + Trace(f, was)
    && seen == SeenAfter(f, was)
    && refusals == counts + Tally(e)
    && (Refuses(e) ==> at == AnsweredAt(f))
  }

  // A step an endpoint does not have is passed over.
  lemma PassOver(log: seq<Effect>, f: Facts, was: set<Delivery>, before: seq<Effect>, s: Step)
    requires Passed(log, f, was, before, Rank(s)) && !Present(f, s)
    ensures Passed(log, f, was, before, Rank(s) + 1)
  {
    assert before + (Steps(f, Rank(s)) + []) == before + Steps(f, Rank(s));
  }

  // Having stopped at a step, doing what its ending asks for ends the request.
  lemma Closes(log: seq<Effect>, seen: set<Delivery>, refusals: multiset<Reason>, f: Facts,
               was: set<Delivery>, counts: multiset<Reason>, before: seq<Effect>, s: Step, e: Ending, at: int)
    requires LastStep(f, was) == Rank(s) && EndsAt(f, was, s) == Some(e)
    requires log == (before + Steps(f, Rank(s) + 1)) + Closing(f, e) && refusals == counts + Tally(e)
    requires Refuses(e) ==> at == AnsweredAt(f)
    requires seen == if Rank(s) >= Rank(RecordDelivery) then was + {DeliveryOf(f)} else was
    ensures Served(log, seen, refusals, f, was, counts, before, e.response, at)
  {
    Regroup(before, Steps(f, Rank(s) + 1), Closing(f, e));
  }

  lemma ClosingReply(f: Facts, note: Note)
    requires f.message.Some?
    ensures Closing(f, Ending(None, SILENCE, Some(note))) ==
            if Blank(note) then [] else [Sent(f.message.value.sender, note)]
  {
  }

  lemma ClosesQuietly(log: seq<Effect>, seen: set<Delivery>, refusals: multiset<Reason>, f: Facts,
                      was: set<Delivery>, counts: multiset<Reason>, before: seq<Effect>, s: Step, e: Ending, at: int)
    requires Stopped(log, seen, f, was, before, s, e) && e.counted == None && e.reply == None && refusals == counts
    ensures Served(log, seen, refusals, f, was, counts, before, e.response, at)
  {
    assert log == log + Closing(f, e);
    Closes(log, seen, refusals, f, was, counts, before, s, e, at);
  }

  datatype Outcome = Duplicate | Ignored | RateLimited | Linked | Accepted(user: Option<string>)

  // What each outcome of the questions about a verified message says of how far
  // the request has come.
  ghost predicate Resolved(log: seq<Effect>, seen: set<Delivery>, f: Facts, was: set<Delivery>, before: seq<Effect>,
                           outcome: Outcome)
  {
    match outcome
    case Duplicate => Stopped(log, seen, f, was, before, RecordDelivery, QUIET)
    case Linked =>
      Stopped(log, seen, f, was, before, ConsumeCode, Ending(None, SILENCE, Some(LinkedTo(f.instance, f.help))))
    case Ignored =>
      || Stopped(log, seen, f, was, before, FindIdentity, QUIET)
      || Stopped(log, seen, f, was, before, FindMember, QUIET)
    case RateLimited => Stopped(log, seen, f, was, before, CheckRate, Ending(None, SILENCE, Some(SlowDown)))
    case Accepted(user) =>
      && f.member == Some(user)
      && (Missing(user) ==> Stopped(log, seen, f, was, before, NameMember, QUIET))
      && (!Missing(user) ==> Passed(log, f, was, before, Rank(Instead)) && seen == was + {DeliveryOf(f)})
  }

  // ---- the endpoint itself ----

  class Door {
    var seen: set<Delivery>
    var refusals: multiset<Reason>
    ghost var log: seq<Effect>

    constructor ()
      ensures seen == {} && refusals == multiset{} && log == []
    {
      seen, refusals, log := {}, multiset{}, [];
    }

    method RecordRefusal(reason: Reason)
      modifies this
      ensures seen == old(seen) && refusals == old(refusals) + multiset{reason}
      ensures log == old(log) + [Counted(reason)]
    {
      refusals := refusals + multiset{reason};
      log := log + [Counted(reason)];
    }

    // One step is taken.
    method Take(ghost f: Facts, ghost was: set<Delivery>, ghost before: seq<Effect>, ghost s: Step)
      requires Passed(log, f, was, before, Rank(s)) && Present(f, s)
      modifies this`log
      ensures EndsAt(f, was, s) == None ==> Passed(log, f, was, before, Rank(s) + 1)
      ensures EndsAt(f, was, s).Some? ==> LastStep(f, was) == Rank(s) && log == before + Steps(f, Rank(s) + 1)
    {
      if EndsAt(f, was, s).Some? {
        StopsHere(f, was, s);
      }
      log := log + [Did(s)];
      assert before + (Steps(f, Rank(s)) + [Did(s)]) == (before + Steps(f, Rank(s))) + [Did(s)];
    }

    // ---- refuse and reply ----

    method Refuse(f: Facts, reason: Reason, ghost was: set<Delivery>, ghost before: seq<Effect>, ghost s: Step)
      returns (response: Response, at: int)
      requires Stopped(log, seen, f, was, before, s, Refusal(reason))
      modifies this
      ensures response == REFUSED && Served(log, seen, refusals, f, was, old(refusals), before, response, at)
    {
      ghost var counts := refusals;
      RecordRefusal(reason);
      var remaining := f.startedAt + REFUSAL_FLOOR_MS - f.now;
      at := f.now;
      if remaining > 0 {
        at := f.now + remaining + f.late;
        log := log + [Waited(remaining)];
      }
      response := Response(401, "");
      Closes(log, seen, refusals, f, was, counts, before, s, Refusal(reason), at);
    }

    method Reply(f: Facts, to: string, note: Note, ghost was: set<Delivery>, ghost before: seq<Effect>, ghost s: Step,
                 ghost at: int)
      requires f.message.Some? && to == f.message.value.sender
      requires Stopped(log, seen, f, was, before, s, Ending(None, SILENCE, Some(note)))
      modifies this`log
      ensures Served(log, seen, refusals, f, was, refusals, before, SILENCE, at)
    {
      ClosingReply(f, note);
      if !Blank(note) {
        log := log + [Sent(to, note)];
      } else {
        assert log == log + [];
      }
      Closes(log, seen, refusals, f, was, refusals, before, s, Ending(None, SILENCE, Some(note)), at);
    }

    // ---- the steps ----

    // Has this delivery been seen, and does the text link an account.
    method ResolveInbound(f: Facts, delivery: Delivery, ghost before: seq<Effect>) returns (outcome: Outcome)
      requires Passed(log, f, seen, before, Rank(RecordDelivery)) && delivery == DeliveryOf(f)
      modifies this`seen, this`log
      ensures Resolved(log, seen, f, old(seen), before, outcome)
    {
      ghost var was := seen;
      Take(f, was, before, RecordDelivery);
      if delivery in seen {
        assert seen == was + {delivery};
        return Duplicate;
      }
      seen := seen + {delivery};
      Take(f, was, before, ConsumeCode);
      if f.links {
        return Linked;
      }
      outcome := ResolveSender(f, was, before);
    }

    // Who sent it: a verified identity, a member, not too often.
    method ResolveSender(f: Facts, ghost was: set<Delivery>, ghost before: seq<Effect>) returns (outcome: Outcome)
      requires Passed(log, f, was, before, Rank(FindIdentity)) && seen == was + {DeliveryOf(f)}
      modifies this`log
      ensures Resolved(log, seen, f, was, before, outcome)
    {
      Take(f, was, before, FindIdentity);
      if f.identity == None || !f.identity.value {
        return Ignored;
      }
      Take(f, was, before, FindMember);
      if f.member == None {
        return Ignored;
      }
      outcome := Welcome(f, was, before);
    }

    // A member the instance knows: the reply window, the rate limit, the log.
    method Welcome(f: Facts, ghost was: set<Delivery>, ghost before: seq<Effect>) returns (outcome: Outcome)
      requires Passed(log, f, was, before, Rank(OpenWindow)) && seen == was + {DeliveryOf(f)} && f.member.Some?
      modifies this`log
      ensures Resolved(log, seen, f, was, before, outcome)
    {
      Take(f, was, before, OpenWindow);
      Take(f, was, before, CheckRate);
      if !f.allowed {
        return RateLimited;
      }
      Take(f, was, before, NameMember);
      return Accepted(f.member.value);
    }

    // Everything up to the tenant the request names.
    method Identify(f: Facts) returns (answer: Option<Response>, at: int)
      modifies this
      ensures answer == None ==>
                Passed(log, f, old(seen), old(log), Rank(FindWorkspace)) && seen == old(seen)
                    && refusals == old(refusals)
      ensures answer.Some? ==> Served(log, seen, refusals, f, old(seen), old(refusals), old(log), answer.value, at)
    {
      ghost var was, before, counts := seen, log, refusals;
      at := f.now;
      Take(f, was, before, ReadBody);
      if f.first.Some? {
        Take(f, was, before, VerifyFirst);
        if !f.first.value {
          var response;
          response, at := Refuse(f, FailedVerification, was, before, VerifyFirst);
          return Some(response), at;
        }
      } else {
        PassOver(log, f, was, before, VerifyFirst);
      }
      Take(f, was, before, ReadTenant);
      if Missing(f.tenant) {
        RecordRefusal(NoTenant);
        Closes(log, seen, refusals, f, was, counts, before, ReadTenant, Ending(Some(NoTenant), SILENCE, None), at);
        return Some(SILENCE), at;
      }
      return None, at;
    }

    // From there to a driver whose check of the raw bytes has succeeded.
    method Admit(f: Facts, ghost before: seq<Effect>) returns (answer: Option<Response>, at: int)
      requires Passed(log, f, seen, before, Rank(FindWorkspace))
      modifies this
      ensures answer == None ==>
                && Passed(log, f, old(seen), before, Rank(BeforeMessage)) && !Missing(f.workspace)
                && seen == old(seen) && refusals == old(refusals)
      ensures answer.Some? ==> Served(log, seen, refusals, f, old(seen), old(refusals), before, answer.value, at)
    {
      ghost var was := seen;
      var response;
      at := f.now;
      Take(f, was, before, FindWorkspace);
      if Missing(f.workspace) {
        response, at := Refuse(f, UnknownTenant, was, before, FindWorkspace);
        return Some(response), at;
      }
      Take(f, was, before, OpenConnection);
      if f.connected {
        Take(f, was, before, BuildDriver);
      }
      if !f.connected || !f.built {
        ghost var s := if f.connected then BuildDriver else OpenConnection;
        response, at := Refuse(f, NoConnection, was, before, s);
        return Some(response), at;
      }
      Take(f, was, before, Verify);
      if !f.verified {
        response, at := Refuse(f, FailedVerification, was, before, Verify);
        return Some(response), at;
      }
      return None, at;
    }

    // The endpoint's own hooks, and the message itself.
    method RunHooks(f: Facts, ghost was: set<Delivery>, ghost before: seq<Effect>, ghost at: int)
      returns (answer: Option<Response>)
      requires Passed(log, f, was, before, Rank(BeforeMessage)) && seen == was
      modifies this`log
      ensures answer == None ==>
                Passed(log, f, was, before, Rank(RecordDelivery)) && f.message.Some? && !Missing(f.delivery)
      ensures answer.Some? ==> Served(log, seen, refusals, f, was, refusals, before, answer.value, at)
    {
      if f.short.Some? {
        Take(f, was, before, BeforeMessage);
        if f.short.value.Some? {
          ClosesQuietly(log, seen, refusals, f, was, refusals, before, BeforeMessage,
              Ending(None, f.short.value.value, None), at);
          return f.short.value;
        }
      } else {
        PassOver(log, f, was, before, BeforeMessage);
      }
      if f.remembers {
        Take(f, was, before, Remember);
      } else {
        PassOver(log, f, was, before, Remember);
      }
      Take(f, was, before, Parse);
      Take(f, was, before, ReadDelivery);
      if f.message == None || Missing(f.delivery) {
        ClosesQuietly(log, seen, refusals, f, was, refusals, before, ReadDelivery, QUIET, at);
        return Some(SILENCE);
      }
      return None;
    }

    method RunInbound(f: Facts) returns (response: Response, at: int)
      modifies this
      ensures Served(log, seen, refusals, f, old(seen), old(refusals), old(log), response, at)
    {
      ghost var was, before := seen, log;
      var refused;
      refused, at := Identify(f);
      if refused.Some? {
        return refused.value, at;
      }
      refused, at := Admit(f, before);
      if refused.Some? {
        return refused.value, at;
      }
      refused := RunHooks(f, was, before, at);
      if refused.Some? {
        return refused.value, at;
      }
      Converse(f, f.message.value.sender, before, at);
      response := SILENCE;
    }

    // From a message that can be told apart from its repeats to the end.
    method Converse(f: Facts, sender: string, ghost before: seq<Effect>, ghost at: int)
      requires Passed(log, f, seen, before, Rank(RecordDelivery))
      requires f.message.Some? && sender == f.message.value.sender && f.workspace.Some? && f.delivery.Some?
      modifies this`seen, this`log
      ensures Served(log, seen, refusals, f, old(seen), refusals, before, SILENCE, at)
    {
      ghost var was := seen;
      var outcome := ResolveInbound(f, Delivery(f.provider, f.workspace.value, f.delivery.value), before);
      match outcome {
        case Duplicate =>
          ClosesQuietly(log, seen, refusals, f, was, refusals, before, RecordDelivery, QUIET, at);
        case Ignored =>
          ghost var s := if f.identity == Some(true) then FindMember else FindIdentity;
          ClosesQuietly(log, seen, refusals, f, was, refusals, before, s, QUIET, at);
        case RateLimited =>
          Reply(f, sender, SlowDown, was, before, CheckRate, at);
        case Linked =>
          Reply(f, sender, LinkedTo(f.instance, f.help), was, before, ConsumeCode, at);
        case Accepted(user) =>
          if Missing(user) {
            ClosesQuietly(log, seen, refusals, f, was, refusals, before, NameMember, QUIET, at);
          } else {
            Route(f, sender, was, before, at);
          }
      }
    }

    // A form, or the answer to what the message asks.
    method Route(f: Facts, sender: string, ghost was: set<Delivery>, ghost before: seq<Effect>, ghost at: int)
      requires Passed(log, f, was, before, Rank(Instead)) && seen == was + {DeliveryOf(f)}
      requires f.message.Some? && sender == f.message.value.sender
      modifies this`log
      ensures Served(log, seen, refusals, f, was, refusals, before, SILENCE, at)
    {
      if f.instead.Some? {
        Take(f, was, before, Instead);
        if f.instead.value {
          ClosesQuietly(log, seen, refusals, f, was, refusals, before, Instead, QUIET, at);
          return;
        }
      } else {
        PassOver(log, f, was, before, Instead);
      }
      Take(f, was, before, Step.Route);
      Reply(f, sender, Answer(f.answer), was, before, Step.Route, at);
    }
  }

  // ---- what the order guarantees ----

  lemma {:induction false} StepsInOrder(f: Facts, n: nat)
    requires n <= STEPS
    ensures forall s :: Did(s) in Steps(f, n) <==> Rank(s) < n && Present(f, s)
    ensures forall i | 0 <= i < |Steps(f, n)| :: Steps(f, n)[i].Did? && Rank(Steps(f, n)[i].step) < n
    ensures forall i, j | 0 <= i < j < |Steps(f, n)| :: Rank(Steps(f, n)[i].step) < Rank(Steps(f, n)[j].step)
  {
    if n > 0 {
      StepsInOrder(f, n - 1);
      RankIsPlace(n - 1);
      forall s ensures Did(s) in Steps(f, n) <==> Rank(s) < n && Present(f, s) {
        assert Nth(Rank(s)) == s;
      }
    }
  }

  function Taken(f: Facts, seen: set<Delivery>): seq<Effect> { Steps(f, LastStep(f, seen) + 1) }

  // The steps come in the one order, each at most once, and what closes a
  // request comes after them all.
  lemma TraceInOrder(f: Facts, seen: set<Delivery>)
    ensures forall i, j | 0 <= i < j < |Trace(f, seen)| && Trace(f, seen)[j].Did? ::
              Trace(f, seen)[i].Did? && Rank(Trace(f, seen)[i].step) < Rank(Trace(f, seen)[j].step)
    ensures forall s :: Did(s) in Trace(f, seen) <==> Rank(s) <= LastStep(f, seen) && Present(f, s)
  {
    StepsInOrder(f, LastStep(f, seen) + 1);
    var steps, closing := Taken(f, seen), Closing(f, EndingOf(f, seen));
    ClosingShape(f, EndingOf(f, seen));
    assert Trace(f, seen) == steps + closing;
  }

  // What must not happen for a request nobody has vouched for: hooks, parsing,
  // handling, and anything sent.
  predicate ActsOnTheMessage(e: Effect) { e.Sent? || (e.Did? && Rank(e.step) > Rank(Verify)) }

  lemma GotPast(f: Facts, seen: set<Delivery>, s: Step)
    requires Rank(s) < LastStep(f, seen)
    ensures EndsAt(f, seen, s) == None
  {
    assert Nth(Rank(s)) == s;
  }

  lemma SentLate(f: Facts, seen: set<Delivery>, e: Effect)
    requires e in Trace(f, seen) && e.Sent?
    ensures (LastStep(f, seen) == Rank(ConsumeCode) && f.links) || LastStep(f, seen) >= Rank(CheckRate)
  {
    var last := LastStep(f, seen);
    SentIsReply(f, seen, e);
    RankIsPlace(last);
    assert EndsAt(f, seen, Nth(last)).value.reply.Some?;
  }

  // Closing counts first, sends last, and takes no further step.
  lemma ClosingShape(f: Facts, e: Ending)
    ensures forall x | x in Closing(f, e) :: !x.Did? && (x.Sent? ==> e.reply.Some?)
    ensures forall r :: Counted(r) in Closing(f, e) <==> e.counted == Some(r)
    ensures forall i | 0 < i < |Closing(f, e)| :: !Closing(f, e)[i].Counted?
  {
  }

  lemma SentIsReply(f: Facts, seen: set<Delivery>, e: Effect)
    requires e in Trace(f, seen) && e.Sent?
    ensures EndingOf(f, seen).reply.Some?
  {
    StepsInOrder(f, LastStep(f, seen) + 1);
    var steps, closing := Taken(f, seen), Closing(f, EndingOf(f, seen));
    ClosingShape(f, EndingOf(f, seen));
    assert e in steps || e in closing;
  }

  lemma NothingBeforeVerification(f: Facts, seen: set<Delivery>, j: nat)
    requires j < |Trace(f, seen)| && ActsOnTheMessage(Trace(f, seen)[j])
    ensures f.verified && f.first != Some(false)
    ensures exists i | 0 <= i < j :: Trace(f, seen)[i] == Did(Verify)
  {
    var trace, e := Trace(f, seen), Trace(f, seen)[j];
    TraceInOrder(f, seen);
    assert e in trace;
    if e.Sent? {
      SentLate(f, seen, e);
    }
    GotPast(f, seen, Verify);
    GotPast(f, seen, VerifyFirst);
    assert Did(Verify) in trace;
    var i :| 0 <= i < |trace| && trace[i] == Did(Verify);
    assert i != j;
    if j < i {
      assert false;
    }
  }

  // ---- refusals ----

  // Which of the four reasons a request is turned away for.
  function WhyRefused(f: Facts): Option<Reason> {
    if f.first == Some(false) then Some(FailedVerification)
    else if Missing(f.tenant) then Some(NoTenant)
    else if Missing(f.workspace) then Some(UnknownTenant)
    else if !f.connected || !f.built then Some(NoConnection)
    else if !f.verified then Some(FailedVerification)
    else None
  }

  // Getting to a step either ends the request there or leads past it.
  lemma Pass(f: Facts, seen: set<Delivery>, s: Step)
    requires Rank(s) <= LastStep(f, seen)
    ensures EndsAt(f, seen, s).Some? ==> LastStep(f, seen) == Rank(s) && EndingOf(f, seen) == EndsAt(f, seen, s).value
    ensures EndsAt(f, seen, s) == None ==> Rank(s) < LastStep(f, seen)
  {
    assert Nth(Rank(s)) == s;
  }

  // A request is counted as refused for exactly the first thing wrong with it,
  // whatever deliveries have been seen; all reasons but one are answered alike.
  lemma RefusedExactly(f: Facts, seen: set<Delivery>)
    ensures EndingOf(f, seen).counted == WhyRefused(f)
    ensures WhyRefused(f).Some? ==>
              EndingOf(f, seen) == if WhyRefused(f) == Some(NoTenant) then Ending(Some(NoTenant), SILENCE, None)
                                   else Refusal(WhyRefused(f).value)
    ensures WhyRefused(f) == None <==> LastStep(f, seen) > Rank(Verify)
  {
    Pass(f, seen, ReadBody);
    Pass(f, seen, VerifyFirst);
    if f.first != Some(false) {
      Pass(f, seen, ReadTenant);
      if !Missing(f.tenant) {
        Pass(f, seen, FindWorkspace);
        if !Missing(f.workspace) {
          Pass(f, seen, OpenConnection);
          if f.connected {
            Pass(f, seen, BuildDriver);
            if f.built {
              Pass(f, seen, Verify);
            }
          }
        }
      }
    }
  }

  lemma OneCounted(steps: seq<Effect>, closing: seq<Effect>, i: nat, j: nat)
    requires forall x | x in steps :: x.Did?
    requires forall k | 0 < k < |closing| :: !closing[k].Counted?
    requires i < j < |steps + closing|
    ensures !((steps + closing)[i].Counted? && (steps + closing)[j].Counted?)
  {
    if i < |steps| {
      assert (steps + closing)[i] in steps;
    } else {
      assert (steps + closing)[j] == closing[j - |steps|];
    }
  }

  lemma TraceParts(f: Facts, seen: set<Delivery>)
    ensures Trace(f, seen) == Taken(f, seen) + Closing(f, EndingOf(f, seen))
    ensures forall x | x in Taken(f, seen) :: x.Did?
  {
    StepsInOrder(f, LastStep(f, seen) + 1);
  }

  // The counter moves for a refusal, by the reason it was refused for, and not
  // otherwise; and no more than once.
  lemma CountedExactly(f: Facts, seen: set<Delivery>, r: Reason)
    ensures Counted(r) in Trace(f, seen) <==> WhyRefused(f) == Some(r)
  {
    var steps, closing := Taken(f, seen), Closing(f, EndingOf(f, seen));
    RefusedExactly(f, seen);
    ClosingShape(f, EndingOf(f, seen));
    TraceParts(f, seen);
    assert Counted(r) !in steps;
  }

  lemma CountedOnce(f: Facts, seen: set<Delivery>, i: nat, j: nat)
    requires i < j < |Trace(f, seen)|
    ensures !(Trace(f, seen)[i].Counted? && Trace(f, seen)[j].Counted?)
  {
    ClosingShape(f, EndingOf(f, seen));
    TraceParts(f, seen);
    OneCounted(Taken(f, seen), Closing(f, EndingOf(f, seen)), i, j);
  }

  predicate TurnedAway(f: Facts) { WhyRefused(f).Some? && WhyRefused(f) != Some(NoTenant) }

  // Of two requests turned away for whatever reasons, by whatever history,
  // neither answer says which: the same status and body, nothing sent, and not
  // before the floor. If both were refused within the floor and their timers
  // ran alike, not even the time tells them apart.
  lemma RefusalsLookAlike(f: Facts, g: Facts, seen: set<Delivery>, others: set<Delivery>)
    requires TurnedAway(f) && TurnedAway(g)
    ensures EndingOf(f, seen).response == EndingOf(g, others).response == REFUSED
    ensures AnsweredAt(f) >= f.startedAt + REFUSAL_FLOOR_MS && AnsweredAt(g) >= g.startedAt + REFUSAL_FLOOR_MS
    ensures forall e | e in Trace(f, seen) + Trace(g, others) :: !e.Sent?
    ensures f.now - f.startedAt < REFUSAL_FLOOR_MS && g.now - g.startedAt < REFUSAL_FLOOR_MS && f.late == g.late ==>
              AnsweredAt(f) - f.startedAt == AnsweredAt(g) - g.startedAt
  {
    RefusedExactly(f, seen);
    RefusedExactly(g, others);
    StepsInOrder(f, LastStep(f, seen) + 1);
    StepsInOrder(g, LastStep(g, others) + 1);
    forall e | e in Trace(f, seen) + Trace(g, others) ensures !e.Sent? {
      assert e in Taken(f, seen) || e in Closing(f, EndingOf(f, seen)) || e in Taken(g, others)
          || e in Closing(g, EndingOf(g, others));
    }
  }

  // ---- who is answered ----

  predicate Hooked(f: Facts) { f.short.Some? && f.short.value.Some? }

  // Somebody known and verified, a member still, and not over the limit.
  predicate Vouched(f: Facts) {
    f.identity == Some(true) && f.member.Some? && f.allowed && !Missing(f.member.value)
  }

  // The steps of one request that reaches the questions about its sender.
  lemma ReachesDelivery(f: Facts, seen: set<Delivery>)
    ensures LastStep(f, seen) >= Rank(RecordDelivery) <==>
              WhyRefused(f) == None && !Hooked(f) && f.message.Some? && !Missing(f.delivery)
  {
    RefusedExactly(f, seen);
    if WhyRefused(f) == None {
      Pass(f, seen, BeforeMessage);
      if !Hooked(f) {
        Pass(f, seen, Remember);
        Pass(f, seen, Parse);
        Pass(f, seen, ReadDelivery);
      }
    }
  }

  predicate Routed(f: Facts, seen: set<Delivery>) { LastStep(f, seen) == Rank(Route) }

  // A command is routed exactly when every question was answered well; the
  // delivery must be one not seen before.
  lemma RoutedExactly(f: Facts, seen: set<Delivery>)
    ensures Routed(f, seen) <==>
              && WhyRefused(f) == None && !Hooked(f) && f.message.Some? && !Missing(f.delivery)
              && DeliveryOf(f) !in seen && !f.links && Vouched(f) && f.instead != Some(true)
  {
    ReachesDelivery(f, seen);
    if LastStep(f, seen) >= Rank(RecordDelivery) {
      Pass(f, seen, RecordDelivery);
      if DeliveryOf(f) !in seen {
        Pass(f, seen, ConsumeCode);
        if !f.links {
          ReachesAnswer(f, seen);
        }
      }
    }
  }

  lemma ReachesAnswer(f: Facts, seen: set<Delivery>)
    requires LastStep(f, seen) >= Rank(FindIdentity)
    ensures Routed(f, seen) <==> Vouched(f) && f.instead != Some(true)
  {
    Pass(f, seen, FindIdentity);
    if f.identity == Some(true) {
      Pass(f, seen, FindMember);
      if f.member.Some? {
        Pass(f, seen, OpenWindow);
        Pass(f, seen, CheckRate);
        if f.allowed {
          Pass(f, seen, NameMember);
          if !Missing(f.member.value) {
            Pass(f, seen, Instead);
          }
        }
      }
    }
  }

  // Whoever is sent anything either proved their account with a code or is a
  // verified sender behind an active member; nobody else hears a word, or
  // takes a place in anybody's rate limit.
  lemma StrangersHearNothing(f: Facts, seen: set<Delivery>, e: Effect)
    requires e in Trace(f, seen) && (e.Sent? || e == Did(CheckRate))
    ensures DeliveryOf(f) !in seen
    ensures (e.Sent? && f.links) || (f.identity == Some(true) && f.member.Some?)
  {
    var last := LastStep(f, seen);
    if e.Sent? {
      SentLate(f, seen, e);
    } else {
      TraceInOrder(f, seen);
    }
    GotPast(f, seen, RecordDelivery);
    if last >= Rank(CheckRate) {
      GotPast(f, seen, FindIdentity);
      GotPast(f, seen, FindMember);
    }
  }

  // ---- runs ----

  // The deliveries seen after serving requests one after another.
  function SeenThrough(run: seq<Facts>, seen: set<Delivery>): set<Delivery> {
    if run == [] then seen
    else
      var before := SeenThrough(run[..|run| - 1], seen);
      SeenAfter(run[|run| - 1], before)
  }

  function CountsThrough(run: seq<Facts>, seen: set<Delivery>): multiset<Reason> {
    if run == [] then multiset{}
    else
      var front := run[..|run| - 1];
      CountsThrough(front, seen) + Tally(EndingOf(run[|run| - 1], SeenThrough(front, seen)))
  }

  // The requests of a run turned away for a reason.
  function RefusedFor(run: seq<Facts>, r: Reason): set<nat> {
    set i: nat | i < |run| && WhyRefused(run[i]) == Some(r)
  }

  lemma TallyOne(f: Facts, seen: set<Delivery>, r: Reason)
    ensures Tally(EndingOf(f, seen))[r] == if WhyRefused(f) == Some(r) then 1 else 0
  {
    RefusedExactly(f, seen);
  }

  lemma RefusedForOneMore(front: seq<Facts>, f: Facts, r: Reason)
    ensures |RefusedFor(front + [f], r)| == |RefusedFor(front, r)| + if WhyRefused(f) == Some(r) then 1 else 0
  {
    var n: nat := |front|;
    var run, here := front + [f], WhyRefused(f) == Some(r);
    var now, were := RefusedFor(run, r), RefusedFor(front, r);
    assert n !in were;
    assert n in now <==> here;
    forall i: nat | i != n ensures i in now <==> i in were {
      assert i < n ==> run[i] == front[i];
    }
    assert now == were + if here then {n} else {};
  }

  // Over a run each counter is the number of requests refused for its reason.
  lemma {:induction false} CountersAreExact(run: seq<Facts>, seen: set<Delivery>, r: Reason)
    ensures CountsThrough(run, seen)[r] == |RefusedFor(run, r)|
  {
    if run == [] {
      assert RefusedFor(run, r) == {};
    } else {
      var front, last := run[..|run| - 1], run[|run| - 1];
      assert run == front + [last];
      CountersAreExact(front, seen, r);
      TallyOne(last, SeenThrough(front, seen), r);
      RefusedForOneMore(front, last, r);
    }
  }
}
