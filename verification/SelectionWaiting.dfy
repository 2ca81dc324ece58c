/** How long a parked selection request waits, and for whose data. */
module SelectionWaiting {
  import opened Bytes
  import opened ClipboardSystem
  import opened SelectionBroker
  import opened SelectionRuns

  predicate HasFormat(q: seq<SelectionResponse>, f: FormatId)
  {
    exists e :: e in q && e.requested.formatToRequest == f
  }

  /** How many groups leave the queue up to and including the one of format `f`. */
  function Turns(q: seq<SelectionResponse>, f: FormatId): (n: nat)
    requires HasFormat(q, f)
    ensures n >= 1
    decreases |q|
  {
    var g := q[0].requested.formatToRequest;
    if f == g then 1 else
    var e :| e in q && e.requested.formatToRequest == f;
    PartitionMembers(q, g);
    1 + Turns(WithoutFormat(q, g), f)
  }

  predicate Deferred(b: Broker, e: SelectionResponse)
  {
    e in b.pending || e in b.queued
  }

  /** The number of data responses after which a parked request is answered. */
  function Rank(b: Broker, e: SelectionResponse): nat
  {
    if e in b.pending then 1
    else if e in b.queued then 1 + Turns(b.queued, e.requested.formatToRequest)
    else 0
  }

  // ----- arrivals do not overtake -----

  lemma {:induction false} TurnsAppend(q: seq<SelectionResponse>, x: SelectionResponse, f: FormatId)
    requires HasFormat(q, f)
    ensures HasFormat(q + [x], f) && Turns(q + [x], f) == Turns(q, f)
    decreases |q|
  {
    var e :| e in q && e.requested.formatToRequest == f;
    assert e in q + [x];
    var g := q[0].requested.formatToRequest;
    if f != g {
      PartitionMembers(q, g);
      assert e in WithoutFormat(q, g);
      WithoutAppend(q, x, g);
      if x.requested.formatToRequest == g {
        assert WithoutFormat(q, g) + [] == WithoutFormat(q, g);
      } else {
        TurnsAppend(WithoutFormat(q, g), x, f);
      }
    }
  }

  lemma ArrivalKeepsRank(b: Broker, x: SelectionResponse, e: SelectionResponse)
    requires Deferred(b, e) && x != e
    ensures Deferred(Defer(b, x), e) && Rank(Defer(b, x), e) == Rank(b, e)
  {
    if e in b.queued {
      TurnsAppend(b.queued, x, e.requested.formatToRequest);
    }
  }

  // ----- every response brings a parked request one step nearer -----

  /** A reply to `e` was sent between `b` and `b'`. */
  ghost predicate AnsweredBetween(b: Broker, b': Broker, e: SelectionResponse)
  {
    exists k, o :: |b.replies| <= k < |b'.replies| && b'.replies[k] == ReplyFor(e, o)
  }

  lemma DrainAnswers(cfg: Config, b: Broker, fail: bool, data: seq<byte>, e: SelectionResponse)
    requires e in b.pending
    ensures AnsweredBetween(b, DrainPending(cfg, b, fail, data), e)
  {
    var i :| 0 <= i < |b.pending| && b.pending[i] == e;
    var os := if fail then seq(|b.pending|, _ => Refused) else Outcomes(cfg, data, Start(b), b.pending);
    assert DrainPending(cfg, b, fail, data).replies[|b.replies| + i] == ReplyFor(e, os[i]);
  }

  lemma PromoteLowersRank(b: Broker, e: SelectionResponse)
    requires b.pending == [] && e in b.queued
    ensures Deferred(PromoteQueued(b), e) && Rank(PromoteQueued(b), e) == Rank(b, e) - 1
  {
    var f := b.queued[0].requested.formatToRequest;
    var b' := PromoteQueued(b);
    PartitionMembers(b.queued, f);
    assert b'.pending == WithFormat(b.queued, f);
    if e.requested.formatToRequest == f {
      assert e in b'.pending;
    } else {
      assert e in WithoutFormat(b.queued, f);
    }
  }

  lemma ResponseLowersRank(cfg: Config, b: Broker, fail: bool, data: seq<byte>, e: SelectionResponse)
    requires ListsWellFormed(b) && Deferred(b, e)
    ensures var b' := ProcessDataResponse(cfg, b, fail, data);
            if Rank(b, e) == 1 then AnsweredBetween(b, b', e)
            else Deferred(b', e) && Rank(b', e) == Rank(b, e) - 1
  {
    var b1 := b.(inFlight := if b.inFlight == [] then [] else b.inFlight[1..]);
    var b2 := DrainPending(cfg, b1, fail, data);
    if e in b.pending {
      DrainAnswers(cfg, b1, fail, data, e);
      var k, o :| |b1.replies| <= k < |b2.replies| && b2.replies[k] == ReplyFor(e, o);
      assert ProcessDataResponse(cfg, b, fail, data).replies[k] == ReplyFor(e, o);
    } else {
      PromoteLowersRank(b2, e);
    }
  }

  // ----- whole runs -----

  function Responses(es: seq<Event>): nat
  {
    if es == [] then 0 else (if es[0].DataResponse? then 1 else 0) + Responses(es[1..])
  }

  lemma StepGrowsReplies(cfg: Config, b: Broker, e: Event)
    ensures b.replies <= Step(cfg, b, e).replies
  {
  }

  lemma {:induction false} RunGrowsReplies(cfg: Config, b: Broker, es: seq<Event>)
    ensures b.replies <= Run(cfg, b, es).replies
    decreases |es|
  {
    if es != [] {
      StepGrowsReplies(cfg, b, es[0]);
      RunGrowsReplies(cfg, Step(cfg, b, es[0]), es[1..]);
    }
  }

  lemma OtherStepKeepsRank(cfg: Config, b: Broker, ev: Event, e: SelectionResponse)
    requires Deferred(b, e) && e.ticket < |b.received|
    requires !ev.DataResponse? && !ev.ServerFormatList?
    ensures Deferred(Step(cfg, b, ev), e) && Rank(Step(cfg, b, ev), e) == Rank(b, e)
  {
    if ev.Select? && ev.request.owner == cfg.drawable {
      JudgeCopies(cfg, b, ev.request, ev.rawId);
      var (caches, v) := Judge(cfg, b, ev.request, ev.rawId);
      if v.Park? {
        ArrivalKeepsRank(b.(received := b.received + [ev.request], caches := caches), v.entry, e);
      }
    }
  }

  lemma StepGrowsReceived(cfg: Config, b: Broker, ev: Event)
    ensures |b.received| <= |Step(cfg, b, ev).received|
  {
  }

  /** In any run without a server format list a parked request is answered by exactly
      the response its rank foretells: not before, and whatever arrives meanwhile. */
  lemma {:induction false} AnsweredAtRank(cfg: Config, b: Broker, es: seq<Event>, e: SelectionResponse)
    requires QueueInvariant(b) && Deferred(b, e) && e.ticket < |b.received|
    requires forall ev | ev in es :: !ev.ServerFormatList?
    ensures Responses(es) < Rank(b, e) ==>
              Deferred(Run(cfg, b, es), e) && Rank(Run(cfg, b, es), e) == Rank(b, e) - Responses(es)
    ensures Responses(es) >= Rank(b, e) ==> AnsweredBetween(b, Run(cfg, b, es), e)
    decreases |es|
  {
    if es != [] {
      var b' := Step(cfg, b, es[0]);
      StepKeepsQueue(cfg, b, es[0]);
      StepGrowsReplies(cfg, b, es[0]);
      StepGrowsReceived(cfg, b, es[0]);
      if es[0].DataResponse? {
        ResponseLowersRank(cfg, b, es[0].fail, es[0].data, e);
      } else {
        OtherStepKeepsRank(cfg, b, es[0], e);
      }
      if es[0].DataResponse? && Rank(b, e) == 1 {
        RunGrowsReplies(cfg, b', es[1..]);
        var k, o :| |b.replies| <= k < |b'.replies| && b'.replies[k] == ReplyFor(e, o);
        assert Run(cfg, b, es).replies[k] == ReplyFor(e, o);
      } else {
        AnsweredAtRank(cfg, b', es[1..], e);
      }
    }
  }

  // ----- the rank is at most one more than the formats ahead -----

  ghost function Formats(q: seq<SelectionResponse>): set<FormatId>
  {
    set e | e in q :: e.requested.formatToRequest
  }

  lemma {:induction false} TurnsWithinFormats(q: seq<SelectionResponse>, f: FormatId)
    requires HasFormat(q, f)
    ensures Turns(q, f) <= |Formats(q)|
    decreases |q|
  {
    var g := q[0].requested.formatToRequest;
    assert q[0] in q;
    assert g in Formats(q);
    var rest := WithoutFormat(q, g);
    PartitionMembers(q, g);
    assert Formats(rest) == Formats(q) - {g};
    if f != g {
      var e :| e in q && e.requested.formatToRequest == f;
      assert e in rest;
      TurnsWithinFormats(rest, f);
    }
  }

  lemma {:induction false} TurnsOfPrefix(q: seq<SelectionResponse>, n: nat, f: FormatId)
    requires n <= |q| && HasFormat(q[..n], f)
    ensures HasFormat(q, f) && Turns(q, f) == Turns(q[..n], f)
    decreases |q|
  {
    if n == |q| {
      assert q[..n] == q;
    } else {
      var m := |q| - 1;
      assert q[..m][..n] == q[..n];
      TurnsOfPrefix(q[..m], n, f);
      TurnsAppend(q[..m], q[m], f);
      assert q[..m] + [q[m]] == q;
    }
  }

  /** Bounded waiting: at most 1 + d responses, d the distinct formats in the queue up
      to and including the request's own place. */
  lemma WaitBound(cfg: Config, b: Broker, i: nat, es: seq<Event>)
    requires QueueInvariant(b) && i < |b.queued| && b.queued[i].ticket < |b.received|
    requires forall ev | ev in es :: !ev.ServerFormatList?
    requires Responses(es) >= 1 + |Formats(b.queued[..i + 1])|
    ensures AnsweredBetween(b, Run(cfg, b, es), b.queued[i])
  {
    var e := b.queued[i];
    var ahead := b.queued[..i + 1];
    assert ahead[i] in ahead;
    TurnsOfPrefix(b.queued, i + 1, e.requested.formatToRequest);
    TurnsWithinFormats(ahead, e.requested.formatToRequest);
    AnsweredAtRank(cfg, b, es, e);
  }

  /** Bounded waiting from the start: whatever led to it, a parked request is answered after
      at most one response if pending, and 1 + d if queued. */
  lemma BoundedWaiting(cfg: Config, evs: seq<Event>, e: SelectionResponse, es: seq<Event>)
    requires Deferred(Run(cfg, INITIAL, evs), e)
    requires forall ev | ev in es :: !ev.ServerFormatList?
    requires var b := Run(cfg, INITIAL, evs);
             || (e in b.pending && Responses(es) >= 1)
             || exists i :: 0 <= i < |b.queued| && b.queued[i] == e && Responses(es) >= 1 + |Formats(b.queued[..i + 1])|
    ensures AnsweredBetween(Run(cfg, INITIAL, evs), Run(cfg, Run(cfg, INITIAL, evs), es), e)
  {
    var b := Run(cfg, INITIAL, evs);
    RunKeepsQueue(cfg, INITIAL, evs);
    Conservation(cfg, evs);
    if e in b.pending {
      assert ParkedFor(e, b.received);
      AnsweredAtRank(cfg, b, es, e);
    } else {
      var i :| 0 <= i < |b.queued| && b.queued[i] == e && Responses(es) >= 1 + |Formats(b.queued[..i + 1])|;
      assert ParkedFor(b.queued[i], b.received);
      WaitBound(cfg, b, i, es);
    }
  }

  // ----- which request a response answers -----

  /** Requests in flight that nobody waits for any more. */
  function Orphans(b: Broker): int
  {
    |b.inFlight| - if b.pending == [] then 0 else 1
  }

  /** A server format list abandons the request in flight for the pending group. */
  function Abandoned(b: Broker, ev: Event): int
  {
    if ev.ServerFormatList? && b.pending != [] then 1 else 0
  }

  /** Only a response that finds nothing pending uses an orphan up. */
  function Absorbed(b: Broker, ev: Event): int
  {
    if ev.DataResponse? && b.pending == [] && b.inFlight != [] then 1 else 0
  }

  lemma ApplyKeepsOrphans(b: Broker, v: Verdict)
    ensures Orphans(Apply(b, v)) == Orphans(b)
  {
  }

  lemma StepOrphans(cfg: Config, b: Broker, ev: Event)
    requires QueueInvariant(b)
    ensures Orphans(Step(cfg, b, ev)) == Orphans(b) + Abandoned(b, ev) - Absorbed(b, ev)
  {
    if ev.Select? && ev.request.owner == cfg.drawable {
      var (caches, v) := Judge(cfg, b, ev.request, ev.rawId);
      ApplyKeepsOrphans(b.(received := b.received + [ev.request], caches := caches), v);
    } else if ev.DataResponse? && b.queued != [] {
      PartitionMembers(b.queued, b.queued[0].requested.formatToRequest);
      assert b.queued[0] in WithFormat(b.queued, b.queued[0].requested.formatToRequest);
    }
  }

  function AbandonedIn(cfg: Config, b: Broker, es: seq<Event>): int
    decreases |es|
  {
    if es == [] then 0 else Abandoned(b, es[0]) + AbandonedIn(cfg, Step(cfg, b, es[0]), es[1..])
  }

  function AbsorbedIn(cfg: Config, b: Broker, es: seq<Event>): int
    decreases |es|
  {
    if es == [] then 0 else Absorbed(b, es[0]) + AbsorbedIn(cfg, Step(cfg, b, es[0]), es[1..])
  }

  /** Over any run orphans are created only by format lists that cut off a pending group
      and disappear only while nothing is pending. */
  lemma {:induction false} RunOrphans(cfg: Config, b: Broker, es: seq<Event>)
    requires QueueInvariant(b)
    ensures Orphans(Run(cfg, b, es)) == Orphans(b) + AbandonedIn(cfg, b, es) - AbsorbedIn(cfg, b, es)
    decreases |es|
  {
    if es != [] {
      StepOrphans(cfg, b, es[0]);
      StepKeepsQueue(cfg, b, es[0]);
      RunOrphans(cfg, Step(cfg, b, es[0]), es[1..]);
    }
  }

  /** The response that pending requests receive was asked for as many requests ago as
      there are orphans; it is the one they wait for exactly when there is none. */
  lemma ResponseLag(cfg: Config, es: seq<Event>)
    requires Run(cfg, INITIAL, es).pending != []
    ensures var b := Run(cfg, INITIAL, es);
            && b.inFlight != []
            && var awaited := b.inFlight[|b.inFlight| - 1];
            && awaited.formatId == PendingFormat(b)
            && b.inFlight[0].serial == awaited.serial - Orphans(b)
            && Orphans(b) == AbandonedIn(cfg, INITIAL, es) - AbsorbedIn(cfg, INITIAL, es)
            && (b.inFlight[0] == awaited <==> AbandonedIn(cfg, INITIAL, es) == AbsorbedIn(cfg, INITIAL, es))
  {
    RunKeepsQueue(cfg, INITIAL, es);
    RunOrphans(cfg, INITIAL, es);
  }

  lemma {:induction false} AbsorbedNonNegative(cfg: Config, b: Broker, es: seq<Event>)
    ensures AbsorbedIn(cfg, b, es) >= 0
    decreases |es|
  {
    if es != [] {
      AbsorbedNonNegative(cfg, Step(cfg, b, es[0]), es[1..]);
    }
  }

  /** Exactly one request is in flight while something is pending, and none otherwise,
      as long as no format list cut off a pending group. */
  lemma OneInFlight(cfg: Config, es: seq<Event>)
    requires AbandonedIn(cfg, INITIAL, es) == 0
    ensures var b := Run(cfg, INITIAL, es);
            |b.inFlight| == if b.pending == [] then 0 else 1
  {
    RunKeepsQueue(cfg, INITIAL, es);
    RunOrphans(cfg, INITIAL, es);
    AbsorbedNonNegative(cfg, INITIAL, es);
  }
}
