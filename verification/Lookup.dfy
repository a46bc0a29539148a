/**
 * The wallet lookup of the session side (src/session/credentiallookup.cpp): which
 * answers are accepted, and a controller that tells its owner at most one thing.
 */
module Lookup {
  import opened Types

  // --- accepting an answer -------------------------------------------------------------

  datatype Outcome = CandidateOutcome | MissOutcome | ErrorOutcome

  /** `share` is empty when the location names no share. */
  datatype Location = Location(scheme: string, host: string, share: string)

  /** `url` is None when the answer carries no usable location at all. */
  datatype Reply = Reply(outcome: Outcome, url: Option<Location>, username: string, domain: string, password: string)

  datatype Request = Request(target: Location, username: string)

  datatype Candidate = Candidate(username: string, domain: string, password: string)

  datatype Identity = Identity(domain: string, username: string)

  /** Case folding and the per-field limits belong to other components. */
  datatype Rules = Rules(fold: string -> string, usable: string -> bool)

  /** The position of the first slash or backslash, or |s|. */
  function Separator(s: string): (i: nat)
    ensures i <= |s|
    ensures i < |s| ==> s[i] in {'/', '\\'}
    ensures forall j :: 0 <= j < i ==> s[j] !in {'/', '\\'}
  {
    if s == "" || s[0] in {'/', '\\'} then 0 else 1 + Separator(s[1..])
  }

  /** DOMAIN\user or DOMAIN/user; a leading separator splits nothing (src/session/shareaddress.cpp). */
  function SplitDomainUser(combined: string): Identity {
    var sep := Separator(combined);
    if 0 < sep < |combined| then Identity(combined[..sep], combined[sep + 1..]) else Identity("", combined)
  }

  /** The repository's own notion of one account named twice (src/session/shareaddress.cpp). */
  predicate SameIdentity(rules: Rules, a: string, b: string) {
    var left, right := SplitDomainUser(a), SplitDomainUser(b);
    rules.fold(left.username) == rules.fold(right.username)
    && (left.domain == "" || right.domain == "" || rules.fold(left.domain) == rules.fold(right.domain))
  }

  /** An answer contradicts the question only where it says something. */
  predicate Elsewhere(rules: Rules, answered: Location, target: Location) {
    || rules.fold(answered.scheme) != rules.fold(target.scheme)
    || rules.fold(answered.host) != rules.fold(target.host)
    || (answered.share != "" && answered.share != target.share)
  }

  function AcceptCandidate(rules: Rules, reply: Reply, request: Request): Option<Candidate> {
    if reply.outcome != CandidateOutcome then None
    else if reply.url.Some? && Elsewhere(rules, reply.url.value, request.target) then None
    else if !rules.usable(reply.username) || !rules.usable(reply.domain) || !rules.usable(reply.password) then None
    else
      var found := SplitDomainUser(reply.username);
      if found.username == "" then None
      else if found.domain != "" && reply.domain != "" && rules.fold(found.domain) != rules.fold(reply.domain) then None
      else if request.username == "" then Some(Candidate(found.username, found.domain, reply.password))
      else
        var asked := SplitDomainUser(request.username);
        if rules.fold(found.username) != rules.fold(asked.username) then None
        else if asked.domain != "" && found.domain != "" && rules.fold(asked.domain) != rules.fold(found.domain)
        then None
        else Some(Candidate(found.username, found.domain, reply.password))
  }

  /**
   * Splitting loses nothing: an accepted candidate is the answer's own account, never a
   * guest, and for a question that named an account it is that same account.
   */
  lemma AcceptedIsTheAskedAccount(rules: Rules, reply: Reply, request: Request)
    requires AcceptCandidate(rules, reply, request).Some?
    ensures var c := AcceptCandidate(rules, reply, request).value;
            c.username != "" && c.password == reply.password
            && (if c.domain == "" then reply.username == c.username
                else exists sep :: sep in {'/', '\\'} && reply.username == c.domain + [sep] + c.username)
    ensures request.username != "" ==> SameIdentity(rules, request.username, reply.username)
    ensures reply.url.Some? && reply.url.value.share != "" ==> reply.url.value.share == request.target.share
  {
    var sep := Separator(reply.username);
    if 0 < sep < |reply.username| {
      assert reply.username == reply.username[..sep] + [reply.username[sep]] + reply.username[sep + 1..];
    }
  }

  // --- the controller ----------------------------------------------------------------------

  datatype Event =
    | Start(request: Request)
    | Cancel
    | ReplyReceived(reply: Option<Reply>) // None: the message did not decode
    | Failed
    | DeadlineFired

  datatype Signal = CandidateReady(candidate: Candidate) | Missed

  /** A start that the controller acts on: a valid target, and a request that fits a message. */
  predicate Startable(e: Event, encodable: Request -> bool) {
    e.Start? && encodable(e.request)
  }

  /** What the first settling event after a start makes the controller say. */
  function Answer(rules: Rules, request: Request, e: Event): Signal {
    if e.ReplyReceived? && e.reply.Some? && AcceptCandidate(rules, e.reply.value, request).Some?
    then CandidateReady(AcceptCandidate(rules, e.reply.value, request).value)
    else Missed
  }

  predicate Settles(e: Event) {
    e.ReplyReceived? || e.Failed? || e.DeadlineFired?
  }

  /** The whole promise: silence until a start, then one answer at the first settling event unless cancelled first. */
  function Promise(rules: Rules, encodable: Request -> bool, request: Option<Request>, events: seq<Event>): seq<Signal>
    decreases |events|
  {
    if events == [] then []
    else match request
      case None =>
        if Startable(events[0], encodable) then Promise(rules, encodable, Some(events[0].request), events[1..])
        else Promise(rules, encodable, None, events[1..])
      case Some(r) =>
        if events[0].Cancel? then []
        else if Settles(events[0]) then [Answer(rules, r, events[0])]
        else Promise(rules, encodable, request, events[1..])
  }

  /**
   * Controller. The slots of a started lookup hold the generation they were connected
   * under and may still be delivered after a cancel; the generation check is what
   * makes them inert.
   */
  class Controller {
    const rules: Rules
    const encodable: Request -> bool
    var generation: nat
    var started: bool
    var delivered: bool
    var running: bool
    var request: Option<Request>
    var bound: Option<nat>      // the generation captured by the slots
    var emitted: seq<Signal>

    constructor (rules: Rules, encodable: Request -> bool)
      ensures this.rules == rules && this.encodable == encodable
      ensures Valid() && !started && emitted == []
    {
      this.rules, this.encodable := rules, encodable;
      generation, started, delivered, running, request, bound, emitted := 0, false, false, false, None, None, [];
    }

    ghost predicate Valid()
      reads this
    {
      && (started <==> request.Some?) && (started <==> bound.Some?)
      && (bound.Some? ==> bound.value <= generation)
      && (running <==> Listening())
      && (Listening() ==> emitted == [])
      && (!started ==> emitted == [] && !delivered)
    }

    /** The slots still act. */
    ghost predicate Listening()
      reads this
    {
      bound.Some? && bound.value == generation && !delivered
    }

    method StartLookup(r: Request)
      requires Valid()
      modifies this
      ensures Valid() && emitted == old(emitted)
      ensures if old(started) || !encodable(r)
              then started == old(started) && request == old(request) && (Listening() <==> old(Listening()))
              else started && Listening() && request == Some(r)
    {
      if started || !encodable(r) { return; }
      started, request := true, Some(r);
      generation := generation + 1;
      bound := Some(generation);
      running := true;
    }

    method CancelLookup()
      requires Valid()
      modifies this
      ensures Valid() && !Listening() && emitted == old(emitted) && started == old(started) && request == old(request)
    {
      generation := generation + 1;
      running := false;
    }

    method FinishWith(s: Signal)
      requires Valid() && emitted == [] && started
      modifies this
      ensures Valid() && !Listening() && emitted == [s] && started && request == old(request)
    {
      CancelLookup();
      emitted := emitted + [s];
    }

    /** The reply, failure and deadline slots share their guard; only a reply can deliver. */
    method Slot(e: Event)
      requires Valid() && Settles(e)
      modifies this
      ensures Valid() && started == old(started) && request == old(request) && !Listening()
      ensures emitted == if old(Listening()) then [Answer(rules, old(request.value), e)] else old(emitted)
    {
      if bound.None? || bound.value != generation || delivered { return; }
      match e
      case ReplyReceived(Some(reply)) =>
        match AcceptCandidate(rules, reply, request.value) {
          case Some(c) =>
            delivered := true;
            running := false;
            FinishWith(CandidateReady(c));
          case None => FinishWith(Missed);
        }
      case ReplyReceived(None) => FinishWith(Missed);
      case Failed => FinishWith(Missed);
      case DeadlineFired => FinishWith(Missed);
    }

    method Handle(e: Event)
      requires Valid()
      modifies this
      ensures Valid()
      ensures emitted == if old(Listening()) && Settles(e) then [Answer(rules, old(request.value), e)] else old(emitted)
      ensures started <==> old(started) || Startable(e, encodable)
      ensures request == if !old(started) && Startable(e, encodable) then Some(e.request) else old(request)
      ensures Listening() <==>
              if old(started) then old(Listening()) && !e.Cancel? && !Settles(e) else Startable(e, encodable)
    {
      match e
      case Start(r) => StartLookup(r);
      case Cancel => CancelLookup();
      case ReplyReceived(_) => Slot(e);
      case Failed => Slot(e);
      case DeadlineFired => Slot(e);
    }
  }

  /** Over every interleaving the controller says exactly what it promised. */
  method RunController(rules: Rules, encodable: Request -> bool, events: seq<Event>) returns (emitted: seq<Signal>)
    ensures emitted == Promise(rules, encodable, None, events)
  {
    var c := new Controller(rules, encodable);
    for i := 0 to |events|
      invariant fresh(c) && c.Valid() && c.rules == rules && c.encodable == encodable
      invariant Promise(rules, encodable, None, events) ==
                if !c.started then Promise(rules, encodable, None, events[i..])
                else if c.Listening() then Promise(rules, encodable, c.request, events[i..])
                else c.emitted
    {
      assert events[i..][0] == events[i] && events[i..][1..] == events[i + 1..];
      c.Handle(events[i]);
    }
    emitted := c.emitted;
  }

  lemma {:induction false} AtMostOneSignal(rules: Rules, encodable: Request -> bool, r: Option<Request>,
                                           events: seq<Event>)
    ensures |Promise(rules, encodable, r, events)| <= 1
    decreases |events|
  {
    if events != [] {
      AtMostOneSignal(rules, encodable, r, events[1..]);
      if Startable(events[0], encodable) {
        AtMostOneSignal(rules, encodable, Some(events[0].request), events[1..]);
      }
    }
  }

  /** After a caller's cancel of a started lookup nothing that follows is ever said. */
  lemma {:induction false} NothingAfterCancel(rules: Rules, encodable: Request -> bool, r: Option<Request>,
                                              before: seq<Event>, after: seq<Event>)
    requires r.Some? || exists i :: 0 <= i < |before| && Startable(before[i], encodable)
    ensures Promise(rules, encodable, r, before + [Cancel] + after) == Promise(rules, encodable, r, before)
    decreases |before|
  {
    var all := before + [Cancel] + after;
    if before == [] {
      assert all[0] == Cancel;
    } else {
      assert all[0] == before[0] && all[1..] == before[1..] + [Cancel] + after;
      if r.None? && Startable(before[0], encodable) {
        NothingAfterCancel(rules, encodable, Some(before[0].request), before[1..], after);
      } else {
        if r.None? {
          var i :| 0 <= i < |before| && Startable(before[i], encodable);
          assert before[1..][i - 1] == before[i];
        }
        NothingAfterCancel(rules, encodable, r, before[1..], after);
      }
    }
  }

  /** A cancel before any start silences nothing: the lookup started afterwards still answers. */
  lemma CancelBeforeStartIsNoCancel(rules: Rules, encodable: Request -> bool, events: seq<Event>)
    ensures Promise(rules, encodable, None, [Cancel] + events) == Promise(rules, encodable, None, events)
  {
    assert ([Cancel] + events)[1..] == events;
  }

  /** A delivered candidate was accepted for the request that was started, and from a reply that arrived. */
  lemma {:induction false} DeliveredWasAccepted(rules: Rules, encodable: Request -> bool, r: Option<Request>,
                                                events: seq<Event>, c: Candidate)
    requires CandidateReady(c) in Promise(rules, encodable, r, events)
    ensures exists request, reply :: (Some(request) == r || (r.None? && Start(request) in events && encodable(request)))
                                     && ReplyReceived(Some(reply)) in events
                                     && AcceptCandidate(rules, reply, request) == Some(c)
    decreases |events|
  {
    if r.Some? && Settles(events[0]) {
      assert ReplyReceived(Some(events[0].reply.value)) in events;
    } else if r.None? && Startable(events[0], encodable) {
      DeliveredWasAccepted(rules, encodable, Some(events[0].request), events[1..], c);
      assert Start(events[0].request) in events;
    } else {
      DeliveredWasAccepted(rules, encodable, r, events[1..], c);
    }
  }

  // --- the child process behind it -----------------------------------------------------------

  const MAX_MESSAGE_BYTES := 64 * 1024

  datatype ProcessEvent = Sent | Output(bytes: nat) | ErrorOccurred | Finished(bytes: nat) | Abandon

  datatype TransportSignal = TransportFailed | TransportReply

  /** ProcessTransport: two flags decide what a dying child may still say. */
  class ProcessTransport {
    var buffered: nat
    var connected: bool
    var abandoned: bool
    var settled: bool
    var emitted: seq<TransportSignal>

    constructor ()
      ensures Valid() && emitted == [] && !settled && !connected
    {
      buffered, connected, abandoned, settled, emitted := 0, false, false, false, [];
    }

    ghost predicate Valid()
      reads this
    {
      (!settled ==> emitted == []) && (abandoned ==> settled) && |emitted| <= 1
    }

    method AbandonProcess()
      requires Valid()
      modifies this`settled, this`abandoned, this`connected
      ensures Valid() && settled && (old(connected) ==> !connected || old(abandoned))
    {
      settled := true;
      if abandoned || !connected { return; }
      abandoned, connected := true, false;
    }

    /** Once settled, by an answer or by being abandoned, it stays silent. */
    method Handle(e: ProcessEvent)
      requires Valid()
      modifies this
      ensures Valid() && (old(settled) ==> settled && emitted == old(emitted))
      ensures e.Abandon? ==> settled && emitted == old(emitted)
      ensures TransportReply in emitted && TransportReply !in old(emitted) ==>
                e.Finished? && 0 < old(buffered) + e.bytes <= MAX_MESSAGE_BYTES
      ensures !e.Abandon? && !old(settled) ==> |emitted| == if settled then 1 else 0
      ensures !settled ==> (connected <==> old(connected) || e.Sent?)
      ensures e.Finished? && old(connected) ==> settled
    {
      match e
      case Sent => connected := true;
      case Abandon => AbandonProcess();
      case Output(n) =>
        if !connected || settled { return; }
        buffered := buffered + n;
        if buffered > MAX_MESSAGE_BYTES {
          settled := true;
          AbandonProcess();
          emitted := emitted + [TransportFailed];
        }
      case ErrorOccurred =>
        if !connected || settled { return; }
        settled := true;
        AbandonProcess();
        emitted := emitted + [TransportFailed];
      case Finished(n) =>
        if !connected || settled { return; }
        settled := true;
        buffered := buffered + n;
        emitted := emitted + [if buffered > MAX_MESSAGE_BYTES || buffered == 0
                              then TransportFailed else TransportReply];
    }
  }

  /** Whatever the child does: one signal at most, and none once the transport was abandoned. */
  method RunTransport(events: seq<ProcessEvent>) returns (emitted: seq<TransportSignal>, emittedAt: seq<nat>)
    ensures |emitted| == |emittedAt| <= 1
    ensures forall k :: 0 <= k < |emittedAt| ==> emittedAt[k] < |events| && Abandon !in events[..emittedAt[k]]
    ensures (exists i, j :: 0 <= i < j < |events| && events[i].Sent? && events[j].Finished?) && Abandon !in events ==>
              |emitted| == 1
  {
    var t := new ProcessTransport();
    emittedAt := [];
    for i := 0 to |events|
      invariant fresh(t) && t.Valid() && |t.emitted| == |emittedAt|
      invariant Abandon in events[..i] ==> t.settled
      invariant forall k :: 0 <= k < |emittedAt| ==> emittedAt[k] < i && Abandon !in events[..emittedAt[k]]
      invariant Abandon !in events[..i] ==> (t.settled ==> |t.emitted| == 1)
      invariant Abandon !in events[..i] && !t.settled ==>
                  ((exists j :: 0 <= j < i && events[j].Sent?) <==> t.connected)
      invariant Abandon !in events[..i] && (exists j, k :: 0 <= j < k < i && events[j].Sent? && events[k].Finished?) ==>
                  t.settled
    {
      var before := |t.emitted|;
      assert events[..i + 1] == events[..i] + [events[i]];
      t.Handle(events[i]);
      if |t.emitted| > before { emittedAt := emittedAt + [i]; }
    }
    assert events[..|events|] == events;
    emitted := t.emitted;
  }
}
