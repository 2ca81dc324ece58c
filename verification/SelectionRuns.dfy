/** What every run of the selection broker keeps: the shape of its two lists and an
    account of every request. */
module SelectionRuns {
  import opened Bytes
  import opened ClipboardSystem
  import opened SelectionBroker

  // ----- the two lists and the requests in flight -----

  function PendingFormat(b: Broker): FormatId
    requires b.pending != []
  {
    b.pending[0].requested.formatToRequest
  }

  ghost predicate ListsWellFormed(b: Broker)
  {
    && (b.pending == [] ==> b.queued == [])
    && (b.pending != [] ==>
          && Matches(b.pending, PendingFormat(b))
          && (forall e | e in b.queued :: e.requested.formatToRequest != PendingFormat(b))
          && b.inFlight != []
          && b.inFlight[|b.inFlight| - 1].formatId == PendingFormat(b))
  }

  /** The requests in flight are the most recent ones, in the order they were sent. */
  ghost predicate InFlightRecent(b: Broker)
  {
    && |b.inFlight| <= b.sent
    && forall i | 0 <= i < |b.inFlight| :: b.inFlight[i].serial == b.sent - |b.inFlight| + i
  }

  ghost predicate QueueInvariant(b: Broker)
  {
    ListsWellFormed(b) && InFlightRecent(b)
  }

  lemma ApplyKeepsQueue(b: Broker, v: Verdict)
    requires QueueInvariant(b)
    ensures QueueInvariant(Apply(b, v))
  {
  }

  lemma PromoteKeepsQueue(b: Broker)
    requires b.pending == [] && InFlightRecent(b)
    ensures QueueInvariant(PromoteQueued(b))
  {
    if b.queued != [] {
      var f := b.queued[0].requested.formatToRequest;
      PartitionMembers(b.queued, f);
      assert b.queued[0] in WithFormat(b.queued, f);
      assert WithFormat(b.queued, f)[0] in WithFormat(b.queued, f);
    }
  }

  lemma StepKeepsQueue(cfg: Config, b: Broker, e: Event)
    requires QueueInvariant(b)
    ensures QueueInvariant(Step(cfg, b, e))
  {
    match e
    case Select(request, rawId) =>
      if request.owner == cfg.drawable {
        var (caches, verdict) := Judge(cfg, b, request, rawId);
        ApplyKeepsQueue(b.(received := b.received + [request], caches := caches), verdict);
      }
    case DataResponse(fail, data) =>
      var b1 := b.(inFlight := if b.inFlight == [] then [] else b.inFlight[1..]);
      PromoteKeepsQueue(DrainPending(cfg, b1, fail, data));
    case _ =>
  }

  lemma {:induction false} RunKeepsQueue(cfg: Config, b: Broker, es: seq<Event>)
    requires QueueInvariant(b)
    ensures QueueInvariant(Run(cfg, b, es))
    decreases |es|
  {
    if es != [] {
      StepKeepsQueue(cfg, b, es[0]);
      RunKeepsQueue(cfg, Step(cfg, b, es[0]), es[1..]);
    }
  }

  // ----- every request is accounted for -----

  function Tickets(es: seq<SelectionResponse>): seq<nat>
  {
    seq(|es|, i requires 0 <= i < |es| => es[i].ticket)
  }

  function Answered(rs: seq<Reply>): seq<nat>
  {
    seq(|rs|, i requires 0 <= i < |rs| => rs[i].ticket)
  }

  function Issued(n: nat): seq<nat>
  {
    seq(n, i => i)
  }

  /** All tickets the broker holds or has disposed of. */
  function Held(b: Broker): multiset<nat>
  {
    multiset(Answered(b.replies)) + multiset(Tickets(b.pending)) + multiset(Tickets(b.queued))
    + multiset(Tickets(b.dropped))
  }

  /** Every ticket issued is answered, pending, queued or dropped, exactly once. */
  ghost predicate Accounted(b: Broker)
  {
    Held(b) == multiset(Issued(|b.received|))
  }

  /** The event still names the requestor, selection, target and time of its request. */
  predicate Answers(e: SelectionEvent, request: SelectionRequest)
  {
    e == EventFor(request, request.property) || e == EventFor(request, NONE)
  }

  predicate ParkedFor(e: SelectionResponse, received: seq<SelectionRequest>)
  {
    e.ticket < |received| && e.event == EventFor(received[e.ticket], received[e.ticket].property)
  }

  predicate RepliedTo(r: Reply, received: seq<SelectionRequest>)
  {
    r.ticket < |received| && Answers(r.event, received[r.ticket])
  }

  ghost predicate Faithful(b: Broker)
  {
    && (forall e | e in b.pending :: ParkedFor(e, b.received))
    && (forall e | e in b.queued :: ParkedFor(e, b.received))
    && (forall r | r in b.replies :: RepliedTo(r, b.received))
  }

  lemma TicketsConcat(a: seq<SelectionResponse>, b: seq<SelectionResponse>)
    ensures Tickets(a + b) == Tickets(a) + Tickets(b)
  {
  }

  lemma AnsweredConcat(a: seq<Reply>, b: seq<Reply>)
    ensures Answered(a + b) == Answered(a) + Answered(b)
  {
  }

  lemma {:induction false} PartitionTickets(es: seq<SelectionResponse>, f: FormatId)
    ensures multiset(Tickets(WithFormat(es, f))) + multiset(Tickets(WithoutFormat(es, f))) == multiset(Tickets(es))
  {
    if es != [] {
      PartitionTickets(es[1..], f);
      assert es == [es[0]] + es[1..];
      TicketsConcat([es[0]], es[1..]);
      TicketsConcat([es[0]], WithFormat(es[1..], f));
      TicketsConcat([es[0]], WithoutFormat(es[1..], f));
      assert [] + WithFormat(es[1..], f) == WithFormat(es[1..], f);
      assert [] + WithoutFormat(es[1..], f) == WithoutFormat(es[1..], f);
    }
  }

  /** The verdict on a request carries its ticket and copies its event. */
  lemma JudgeCopies(cfg: Config, b: Broker, request: SelectionRequest, rawId: Option<FormatId>)
    ensures match Judge(cfg, b, request, rawId).1
            case Now(reply) => reply.ticket == |b.received| && Answers(reply.event, request)
            case Park(entry) => entry.ticket == |b.received| && entry.event == EventFor(request, request.property)
  {
  }

  lemma ApplyHolds(b: Broker, v: Verdict)
    ensures Held(Apply(b, v)) == Held(b) + multiset{if v.Now? then v.reply.ticket else v.entry.ticket}
  {
    match v
    case Now(reply) =>
      AnsweredConcat(b.replies, [reply]);
      assert Answered([reply]) == [reply.ticket];
    case Park(e) =>
      TicketsConcat(b.pending, [e]);
      TicketsConcat(b.queued, [e]);
      assert Tickets([e]) == [e.ticket];
      assert Tickets([]) == [];
      assert [] + [e] == [e];
  }

  lemma ApplyFaithful(b: Broker, v: Verdict)
    requires Faithful(b)
    requires if v.Now? then RepliedTo(v.reply, b.received) else ParkedFor(v.entry, b.received)
    ensures Faithful(Apply(b, v))
  {
  }

  lemma IssuedNext(n: nat)
    ensures multiset(Issued(n + 1)) == multiset(Issued(n)) + multiset{n}
  {
    assert Issued(n + 1) == Issued(n) + [n];
  }

  lemma ReceiveFaithful(b: Broker, request: SelectionRequest, caches: Caches)
    requires Faithful(b)
    ensures Faithful(b.(received := b.received + [request], caches := caches))
  {
  }

  lemma VerdictFits(cfg: Config, b: Broker, request: SelectionRequest, rawId: Option<FormatId>)
    ensures match Judge(cfg, b, request, rawId).1
            case Now(reply) => RepliedTo(reply, b.received + [request])
            case Park(entry) => ParkedFor(entry, b.received + [request])
  {
    JudgeCopies(cfg, b, request, rawId);
  }

  lemma SelectFaithful(cfg: Config, b: Broker, request: SelectionRequest, rawId: Option<FormatId>)
    requires Faithful(b)
    ensures Faithful(ProcessSelectionRequest(cfg, b, request, rawId))
  {
    if request.owner == cfg.drawable {
      var (caches, v) := Judge(cfg, b, request, rawId);
      VerdictFits(cfg, b, request, rawId);
      ReceiveFaithful(b, request, caches);
      ApplyFaithful(b.(received := b.received + [request], caches := caches), v);
    }
  }

  lemma AccountNext(b: Broker, b': Broker)
    requires Accounted(b) && |b'.received| == |b.received| + 1 && Held(b') == Held(b) + multiset{|b.received|}
    ensures Accounted(b')
  {
    IssuedNext(|b.received|);
  }

  lemma ApplyAccounted(b: Broker, request: SelectionRequest, caches: Caches, v: Verdict)
    requires Accounted(b) && (if v.Now? then v.reply.ticket else v.entry.ticket) == |b.received|
    ensures Accounted(Apply(b.(received := b.received + [request], caches := caches), v))
  {
    var b1 := b.(received := b.received + [request], caches := caches);
    ApplyHolds(b1, v);
    assert Held(b1) == Held(b);
    AccountNext(b, Apply(b1, v));
  }

  lemma SelectAccounted(cfg: Config, b: Broker, request: SelectionRequest, rawId: Option<FormatId>)
    requires Accounted(b)
    ensures Accounted(ProcessSelectionRequest(cfg, b, request, rawId))
  {
    if request.owner == cfg.drawable {
      var (caches, v) := Judge(cfg, b, request, rawId);
      JudgeCopies(cfg, b, request, rawId);
      ApplyAccounted(b, request, caches, v);
    }
  }

  lemma RepliesFaithful(es: seq<SelectionResponse>, os: seq<Outcome>, received: seq<SelectionRequest>)
    requires |es| == |os|
    requires forall e | e in es :: ParkedFor(e, received)
    ensures Answered(Replies(es, os)) == Tickets(es)
    ensures forall r | r in Replies(es, os) :: RepliedTo(r, received)
  {
    forall i | 0 <= i < |es|
      ensures RepliedTo(Replies(es, os)[i], received)
    {
      assert es[i] in es;
    }
  }

  lemma DrainKeepsAccount(cfg: Config, b: Broker, fail: bool, data: seq<byte>)
    requires Accounted(b) && Faithful(b)
    ensures Accounted(DrainPending(cfg, b, fail, data)) && Faithful(DrainPending(cfg, b, fail, data))
  {
    var os := if fail then seq(|b.pending|, _ => Refused) else Outcomes(cfg, data, Start(b), b.pending);
    RepliesFaithful(b.pending, os, b.received);
    AnsweredConcat(b.replies, Replies(b.pending, os));
    assert Tickets([]) == [];
  }

  lemma PromoteKeepsAccount(b: Broker)
    requires Accounted(b) && Faithful(b)
    ensures Accounted(PromoteQueued(b)) && Faithful(PromoteQueued(b))
  {
    if b.queued != [] {
      var f := b.queued[0].requested.formatToRequest;
      PartitionTickets(b.queued, f);
      PartitionMembers(b.queued, f);
      TicketsConcat(b.pending, WithFormat(b.queued, f));
    }
  }

  lemma DropKeepsAccount(b: Broker, formats: seq<ServerFormat>)
    requires Accounted(b) && Faithful(b)
    ensures Accounted(ProcessServerFormatList(b, formats)) && Faithful(ProcessServerFormatList(b, formats))
  {
    TicketsConcat(b.dropped, b.pending);
    TicketsConcat(b.dropped + b.pending, b.queued);
    assert Tickets([]) == [];
  }

  lemma StepKeepsAccount(cfg: Config, b: Broker, e: Event)
    requires Accounted(b) && Faithful(b)
    ensures Accounted(Step(cfg, b, e)) && Faithful(Step(cfg, b, e))
  {
    match e
    case Select(request, rawId) =>
      SelectAccounted(cfg, b, request, rawId);
      SelectFaithful(cfg, b, request, rawId);
    case DataResponse(fail, data) =>
      var b1 := b.(inFlight := if b.inFlight == [] then [] else b.inFlight[1..]);
      DrainKeepsAccount(cfg, b1, fail, data);
      PromoteKeepsAccount(DrainPending(cfg, b1, fail, data));
    case ServerFormatList(formats) => DropKeepsAccount(b, formats);
    case _ =>
  }

  lemma {:induction false} RunKeepsAccount(cfg: Config, b: Broker, es: seq<Event>)
    requires Accounted(b) && Faithful(b)
    ensures Accounted(Run(cfg, b, es)) && Faithful(Run(cfg, b, es))
    decreases |es|
  {
    if es != [] {
      StepKeepsAccount(cfg, b, es[0]);
      RunKeepsAccount(cfg, Step(cfg, b, es[0]), es[1..]);
    }
  }

  lemma AccountSizes(b: Broker)
    requires Accounted(b)
    ensures |b.received| == |b.replies| + |b.pending| + |b.queued| + |b.dropped|
  {
    assert |Held(b)| == |b.replies| + |b.pending| + |b.queued| + |b.dropped|;
  }

  lemma {:induction false} IssuedOnce(n: nat, t: nat)
    ensures multiset(Issued(n))[t] == if t < n then 1 else 0
  {
    if n == 0 {
      assert Issued(0) == [];
    } else {
      IssuedOnce(n - 1, t);
      assert Issued(n) == Issued(n - 1) + [n - 1];
    }
  }

  lemma TwiceInSeq(s: seq<nat>, i: nat, j: nat)
    requires i < j < |s| && s[i] == s[j]
    ensures multiset(s)[s[i]] >= 2
  {
    assert s == s[..j] + s[j..];
    assert s[i] in s[..j] && s[j..][0] in s[j..];
  }

  lemma AnsweredOnce(b: Broker, i: nat, j: nat)
    requires Accounted(b) && i < j < |b.replies|
    ensures b.replies[i].ticket != b.replies[j].ticket
  {
    var t := Answered(b.replies);
    if t[i] == t[j] {
      TwiceInSeq(t, i, j);
      assert Held(b)[t[i]] >= 2;
      IssuedOnce(|b.received|, t[i]);
    }
  }

  /** Conservation over every run from the start, and no request answered twice. */
  lemma Conservation(cfg: Config, es: seq<Event>)
    ensures var b := Run(cfg, INITIAL, es);
            && Accounted(b) && Faithful(b)
            && |b.received| == |b.replies| + |b.pending| + |b.queued| + |b.dropped|
            && (forall i, j | 0 <= i < j < |b.replies| :: b.replies[i].ticket != b.replies[j].ticket)
  {
    assert Accounted(INITIAL) by {
      assert Answered([]) == [] && Tickets([]) == [] && Issued(0) == [];
    }
    RunKeepsAccount(cfg, INITIAL, es);
    var b := Run(cfg, INITIAL, es);
    AccountSizes(b);
    forall i, j | 0 <= i < j < |b.replies|
      ensures b.replies[i].ticket != b.replies[j].ticket
    {
      AnsweredOnce(b, i, j);
    }
  }
}
