/** Where the bytes of a reply come from: over every run, a response received since the
    last format list, and the one just received unless the target's slot was filled before. */
module SelectionProvenance {
  import opened Bytes
  import opened ClipboardSystem
  import opened SelectionBroker
  import opened SelectionCache

  // ----- responses since the last format list -----

  function Hear(since: set<seq<byte>>, ev: Event): set<seq<byte>>
  {
    match ev
    case DataResponse(fail, data) => if fail then since else since + {data}
    case ServerFormatList(_) => {}
    case ClientFormatList => {}
    case _ => since
  }

  function HearAll(since: set<seq<byte>>, es: seq<Event>): set<seq<byte>>
    decreases |es|
  {
    if es == [] then since else HearAll(Hear(since, es[0]), es[1..])
  }

  /** What the server sent in `es` after the last format list of either side. */
  function Since(es: seq<Event>): set<seq<byte>>
  {
    HearAll({}, es)
  }

  lemma {:induction false} RunNext(cfg: Config, b: Broker, since: set<seq<byte>>, es: seq<Event>, n: nat)
    requires n < |es|
    ensures Run(cfg, b, es[..n + 1]) == Step(cfg, Run(cfg, b, es[..n]), es[n])
    ensures HearAll(since, es[..n + 1]) == Hear(HearAll(since, es[..n]), es[n])
    decreases n
  {
    assert es[..n + 1][0] == es[0];
    var b', since' := Step(cfg, b, es[0]), Hear(since, es[0]);
    if n == 0 {
      assert es[..1][1..] == [] && es[..0] == [];
      assert Run(cfg, b', []) == b' && HearAll(since', []) == since';
    } else {
      RunNext(cfg, b', since', es[1..], n - 1);
      assert es[..n + 1][1..] == es[1..][..n] && es[..n][1..] == es[1..][..n - 1] && es[..n][0] == es[0];
    }
  }

  // ----- conversions -----

  /** `bytes` is `data` set as `src`, got as `dst` and cut if `nt` holds. */
  predicate Converts(cfg: Config, data: seq<byte>, src: FormatId, dst: FormatId, nt: bool, bytes: seq<byte>)
  {
    match SetData(cfg, src, data)
    case None => false
    case Some(sys) =>
      match GetData(cfg, sys, dst)
      case None => false
      case Some(v) => bytes == Trunc(nt, v)
  }

  /** A conversion to `dst` of one of the responses. */
  ghost predicate FromOneOf(cfg: Config, since: set<seq<byte>>, dst: FormatId, bytes: seq<byte>)
  {
    exists data, src, nt :: data in since && Converts(cfg, data, src, dst, nt, bytes)
  }

  lemma TruncMore(nt: bool, nt': bool, v: seq<byte>)
    ensures Trunc(nt', Trunc(nt, v)) == Trunc(nt || nt', v)
  {
    if nt && nt' {
      TruncTwice(true, v);
    }
  }

  /** Cutting a conversion again gives one too. */
  lemma CutIsFrom(cfg: Config, since: set<seq<byte>>, dst: FormatId, bytes: seq<byte>, nt': bool)
    requires FromOneOf(cfg, since, dst, bytes)
    ensures FromOneOf(cfg, since, dst, Trunc(nt', bytes))
  {
    var data, src, nt :| data in since && Converts(cfg, data, src, dst, nt, bytes);
    TruncMore(nt, nt', GetData(cfg, SetData(cfg, src, data).value, dst).value);
    assert Converts(cfg, data, src, dst, nt || nt', Trunc(nt', bytes));
  }

  // ----- the caches -----

  ghost predicate Sourced(cfg: Config, c: Caches, since: set<seq<byte>>)
  {
    && RawKeysPlain(c)
    && (forall k | k in c.raw :: c.raw[k] in since)
    && (forall dst: FormatId | Slot(dst) in c.data :: FromOneOf(cfg, since, dst, c.data[Slot(dst)]))
  }

  /** The clipboard object holds the response under some format. */
  ghost predicate SetFrom(cfg: Config, data: seq<byte>, sys: System)
  {
    exists src :: SetData(cfg, src, data) == Some(sys)
  }

  ghost predicate DrainSourced(cfg: Config, data: seq<byte>, d: Drain, since: set<seq<byte>>)
  {
    Sourced(cfg, d.caches, since) && (d.isSet ==> SetFrom(cfg, data, d.caches.system))
  }

  lemma GotIsFrom(cfg: Config, data: seq<byte>, sys: System, since: set<seq<byte>>, dst: FormatId, nt: bool)
    requires data in since && SetFrom(cfg, data, sys) && GetData(cfg, sys, dst).Some?
    ensures FromOneOf(cfg, since, dst, Trunc(nt, GetData(cfg, sys, dst).value))
  {
    var src :| SetData(cfg, src, data) == Some(sys);
    assert Converts(cfg, data, src, dst, nt, Trunc(nt, GetData(cfg, sys, dst).value));
  }

  lemma FileKeepsSourced(cfg: Config, c: Caches, since: set<seq<byte>>, dst: FormatId, bytes: seq<byte>)
    requires Sourced(cfg, c, since) && FromOneOf(cfg, since, dst, bytes)
    ensures Sourced(cfg, c.(data := Insert(c.data, Slot(dst), bytes)), since)
  {
  }

  lemma PrepareKeepsSourced(cfg: Config, data: seq<byte>, d: Drain, src: FormatId, since: set<seq<byte>>)
    requires DrainSourced(cfg, data, d, since) && data in since
    ensures DrainSourced(cfg, data, EnsureSet(cfg, KeepRaw(d, src, data), src, data), since)
  {
  }

  lemma FetchKeepsSourced(cfg: Config, data: seq<byte>, d: Drain, r: Route, raw: bool, since: set<seq<byte>>)
    requires DrainSourced(cfg, data, d, since) && data in since && d.isSet
    ensures var (d', o) := Fetch(cfg, d, r, raw);
            DrainSourced(cfg, data, d', since) && (o.Provided? ==> FromOneOf(cfg, since, r.dst, o.bytes))
  {
    var hit := if raw then Lookup(d.caches.raw, Slot(r.src)) else Lookup(d.caches.data, Slot(r.dst));
    if hit.Some? {
      CutIsFrom(cfg, since, r.dst, hit.value, r.nullTerminated);
    } else if GetData(cfg, d.caches.system, r.dst).Some? {
      var w := Trunc(r.nullTerminated, GetData(cfg, d.caches.system, r.dst).value);
      GotIsFrom(cfg, data, d.caches.system, since, r.dst, r.nullTerminated);
      FileKeepsSourced(cfg, d.caches, since, r.dst, w);
    }
  }

  lemma ServeKeepsSourced(cfg: Config, data: seq<byte>, d: Drain, e: SelectionResponse, since: set<seq<byte>>)
    requires DrainSourced(cfg, data, d, since) && data in since
    ensures var (d', o) := Serve(cfg, data, d, e);
            && DrainSourced(cfg, data, d', since)
            && (o.Provided? ==> FromOneOf(cfg, since, RouteOf(cfg, e).dst, o.bytes))
  {
    if data != [] {
      var r := RouteOf(cfg, e);
      PrepareKeepsSourced(cfg, data, d, r.src, since);
      var d1 := EnsureSet(cfg, KeepRaw(d, r.src, data), r.src, data);
      if d1.isSet {
        FetchKeepsSourced(cfg, data, d1, r, e.raw, since);
      }
    }
  }

  /** One response: everything it puts into the caches and hands out is a conversion. */
  lemma {:induction false} DrainKeepsSourced(cfg: Config, data: seq<byte>, d: Drain, es: seq<SelectionResponse>,
                                             since: set<seq<byte>>)
    requires DrainSourced(cfg, data, d, since) && data in since
    ensures DrainSourced(cfg, data, AfterDrain(cfg, data, d, es), since)
    ensures var os := Outcomes(cfg, data, d, es);
            forall i | 0 <= i < |es| && os[i].Provided? :: FromOneOf(cfg, since, RouteOf(cfg, es[i]).dst, os[i].bytes)
    decreases |es|
  {
    if es != [] {
      ServeKeepsSourced(cfg, data, d, es[0], since);
      DrainKeepsSourced(cfg, data, Serve(cfg, data, d, es[0]).0, es[1..], since);
    }
  }

  lemma ConvertKeepsSourced(cfg: Config, c: Caches, f: ClientFormat, since: set<seq<byte>>)
    requires Sourced(cfg, c, since)
    ensures var (c', cached) := ConvertFromRaw(cfg, c, f);
            Sourced(cfg, c', since) && (cached.Some? ==> FromOneOf(cfg, since, DstForRequest(cfg, f), cached.value))
  {
    var (src, nt) := SrcForRequest(cfg, f);
    var dst := DstForRequest(cfg, f);
    var raw := Lookup(c.raw, src);
    if raw.Some? && SetData(cfg, src, raw.value).Some? {
      var sys := SetData(cfg, src, raw.value).value;
      if GetData(cfg, sys, dst).Some? {
        GotIsFrom(cfg, raw.value, sys, since, dst, nt);
        FileKeepsSourced(cfg, c.(system := sys), since, dst, Trunc(nt, GetData(cfg, sys, dst).value));
      }
    }
  }

  /** Where a request for `target` converts to. */
  function Destination(cfg: Config, target: Atom): FormatId
  {
    var client := ClientFormatByAtom(cfg.clientFormats, target);
    if client.None? then CF_RAW else DstForRequest(cfg, client.value)
  }

  /** The data of a reply is such a conversion to its target's destination, or for a raw
      request to CF_RAW. */
  ghost predicate Honest(cfg: Config, since: set<seq<byte>>, reply: Reply)
  {
    reply.payload.Data? ==>
      || FromOneOf(cfg, since, Destination(cfg, reply.event.target), reply.payload.bytes)
      || FromOneOf(cfg, since, CF_RAW, reply.payload.bytes)
  }

  lemma JudgeKeepsSourced(cfg: Config, b: Broker, request: SelectionRequest, rawId: Option<FormatId>,
                          since: set<seq<byte>>)
    requires Sourced(cfg, b.caches, since)
    ensures var (c', v) := Judge(cfg, b, request, rawId);
            Sourced(cfg, c', since) && (v.Now? ==> Honest(cfg, since, v.reply))
  {
    var client := ClientFormatByAtom(cfg.clientFormats, request.target);
    if client.Some? {
      ConvertKeepsSourced(cfg, b.caches, client.value, since);
    }
  }

  lemma EntryHonest(cfg: Config, servers: seq<ServerFormat>, e: SelectionResponse, o: Outcome, since: set<seq<byte>>)
    requires Current(cfg, servers, e) && (o.Provided? ==> FromOneOf(cfg, since, RouteOf(cfg, e).dst, o.bytes))
    ensures Honest(cfg, since, ReplyFor(e, o))
  {
    if !e.raw {
      RoutesAgree(cfg, servers, e);
    }
  }

  lemma ResponseHonest(cfg: Config, b: Broker, data: seq<byte>, since: set<seq<byte>>, i: nat)
    requires DrainSourced(cfg, data, Start(b), since) && data in since && AllCurrent(cfg, b) && i < |b.pending|
    ensures Honest(cfg, since, Replies(b.pending, Outcomes(cfg, data, Start(b), b.pending))[i])
  {
    DrainKeepsSourced(cfg, data, Start(b), b.pending, since);
    EntryHonest(cfg, b.serverFormats, b.pending[i], Outcomes(cfg, data, Start(b), b.pending)[i], since);
  }

  lemma MoreHeard(cfg: Config, c: Caches, since: set<seq<byte>>, data: seq<byte>)
    requires Sourced(cfg, c, since)
    ensures Sourced(cfg, c, since + {data})
  {
    forall dst: FormatId | Slot(dst) in c.data
      ensures FromOneOf(cfg, since + {data}, dst, c.data[Slot(dst)])
    {
      var old', src, nt :| old' in since && Converts(cfg, old', src, dst, nt, c.data[Slot(dst)]);
      assert old' in since + {data};
    }
  }

  // ----- every run -----

  lemma StepKeepsSourced(cfg: Config, b: Broker, since: set<seq<byte>>, ev: Event)
    requires Sourced(cfg, b.caches, since)
    ensures Sourced(cfg, Step(cfg, b, ev).caches, Hear(since, ev))
  {
    match ev
    case Select(request, rawId) => JudgeKeepsSourced(cfg, b, request, rawId, since);
    case DataResponse(fail, data) =>
      if !fail {
        MoreHeard(cfg, b.caches, since, data);
        DrainKeepsSourced(cfg, data, Start(b), b.pending, since + {data});
      }
    case _ =>
  }

  lemma {:induction false} RunKeepsSourced(cfg: Config, b: Broker, since: set<seq<byte>>, es: seq<Event>)
    requires Sourced(cfg, b.caches, since)
    ensures Sourced(cfg, Run(cfg, b, es).caches, HearAll(since, es))
    decreases |es|
  {
    if es != [] {
      StepKeepsSourced(cfg, b, since, es[0]);
      RunKeepsSourced(cfg, Step(cfg, b, es[0]), Hear(since, es[0]), es[1..]);
    }
  }

  /** The replies one event adds. */
  lemma StepHonest(cfg: Config, b: Broker, since: set<seq<byte>>, ev: Event, k: nat)
    requires Sourced(cfg, b.caches, since) && AllCurrent(cfg, b)
    requires |b.replies| <= k < |Step(cfg, b, ev).replies|
    ensures Honest(cfg, Hear(since, ev), Step(cfg, b, ev).replies[k])
  {
    match ev
    case Select(request, rawId) => JudgeKeepsSourced(cfg, b, request, rawId, since);
    case DataResponse(fail, data) =>
      if !fail {
        MoreHeard(cfg, b.caches, since, data);
        ResponseHonest(cfg, b, data, since + {data}, k - |b.replies|);
      }
    case _ =>
  }

  lemma StepKeepsReplies(cfg: Config, b: Broker, ev: Event)
    ensures b.replies <= Step(cfg, b, ev).replies
  {
  }

  /** Every run, every reply: it was added by some event, and its data is a conversion of a
      response that had arrived by then since the last format list. */
  lemma {:induction false} Provenance(cfg: Config, es: seq<Event>, k: nat) returns (n: nat)
    requires k < |Run(cfg, INITIAL, es).replies|
    ensures n < |es|
    ensures |Run(cfg, INITIAL, es[..n]).replies| <= k < |Run(cfg, INITIAL, es[..n + 1]).replies|
    ensures Run(cfg, INITIAL, es[..n + 1]).replies[k] == Run(cfg, INITIAL, es).replies[k]
    ensures Honest(cfg, Since(es[..n + 1]), Run(cfg, INITIAL, es).replies[k])
    decreases |es|
  {
    n := |es| - 1;
    assert es[..n + 1] == es;
    var before := Run(cfg, INITIAL, es[..n]);
    RunNext(cfg, INITIAL, {}, es, n);
    StepKeepsReplies(cfg, before, es[n]);
    if k < |before.replies| {
      var all := es[..n];
      n := Provenance(cfg, all, k);
      assert all[..n] == es[..n] && all[..n + 1] == es[..n + 1];
    } else {
      RunKeepsSourced(cfg, INITIAL, {}, es[..n]);
      RunKeepsCurrent(cfg, INITIAL, es[..n]);
      StepHonest(cfg, before, Since(es[..n]), es[n], k);
    }
  }

  // ----- when a slot is filled -----

  predicate IsList(ev: Event)
  {
    ev.ServerFormatList? || ev.ClientFormatList?
  }

  /** A request for data that is to be converted to `dst`. */
  predicate AsksFor(cfg: Config, b: Broker, request: SelectionRequest, rawId: Option<FormatId>, dst: FormatId)
  {
    var client := ClientFormatByAtom(cfg.clientFormats, request.target);
    && request.owner == cfg.drawable && request.requestor != cfg.drawable
    && request.target != cfg.timestampAtom && request.target != cfg.targetsAtom
    && ServerFormatByAtom(cfg.clientFormats, b.serverFormats, request.target).Some?
    && !IsRawRequest(cfg, b, request, rawId)
    && client.Some? && DstForRequest(cfg, client.value) == dst
  }

  ghost predicate Provides(cfg: Config, data: seq<byte>, d: Drain, es: seq<SelectionResponse>, dst: FormatId)
  {
    exists i :: 0 <= i < |es| && RouteOf(cfg, es[i]).dst == dst && Outcomes(cfg, data, d, es)[i].Provided?
  }

  /** The event answers a request with data converted to `dst`. */
  ghost predicate Serves(cfg: Config, b: Broker, ev: Event, dst: FormatId)
  {
    match ev
    case Select(request, rawId) =>
      AsksFor(cfg, b, request, rawId, dst) && Judge(cfg, b, request, rawId).1.Now?
    case DataResponse(fail, data) => !fail && Provides(cfg, data, Start(b), b.pending, dst)
    case _ => false
  }

  lemma ServeFills(cfg: Config, data: seq<byte>, d: Drain, e: SelectionResponse, dst: FormatId)
    requires RawKeysPlain(d.caches)
    ensures var (d', o) := Serve(cfg, data, d, e);
            && RawKeysPlain(d'.caches)
            && (Slot(dst) in d'.caches.data
                <==> Slot(dst) in d.caches.data || (RouteOf(cfg, e).dst == dst && o.Provided?))
  {
  }

  lemma ProvidesFirst(cfg: Config, data: seq<byte>, d: Drain, es: seq<SelectionResponse>, dst: FormatId)
    requires es != []
    ensures var (d', o) := Serve(cfg, data, d, es[0]);
            Provides(cfg, data, d, es, dst)
            <==> (RouteOf(cfg, es[0]).dst == dst && o.Provided?) || Provides(cfg, data, d', es[1..], dst)
  {
    var (d', o) := Serve(cfg, data, d, es[0]);
    var os, rest := Outcomes(cfg, data, d, es), Outcomes(cfg, data, d', es[1..]);
    if Provides(cfg, data, d, es, dst) {
      var i :| 0 <= i < |es| && RouteOf(cfg, es[i]).dst == dst && os[i].Provided?;
      if i > 0 {
        assert RouteOf(cfg, es[1..][i - 1]).dst == dst && rest[i - 1].Provided?;
      }
    }
    if Provides(cfg, data, d', es[1..], dst) {
      var i :| 0 <= i < |es[1..]| && RouteOf(cfg, es[1..][i]).dst == dst && rest[i].Provided?;
      assert RouteOf(cfg, es[i + 1]).dst == dst && os[i + 1].Provided?;
    }
  }

  lemma {:induction false} DrainFills(cfg: Config, data: seq<byte>, d: Drain, es: seq<SelectionResponse>, dst: FormatId)
    requires RawKeysPlain(d.caches)
    ensures Slot(dst) in AfterDrain(cfg, data, d, es).caches.data
       <==> Slot(dst) in d.caches.data || Provides(cfg, data, d, es, dst)
    decreases |es|
  {
    if es != [] {
      ServeFills(cfg, data, d, es[0], dst);
      DrainFills(cfg, data, Serve(cfg, data, d, es[0]).0, es[1..], dst);
      ProvidesFirst(cfg, data, d, es, dst);
    }
  }

  lemma JudgeFills(cfg: Config, b: Broker, request: SelectionRequest, rawId: Option<FormatId>, dst: FormatId)
    requires request.owner == cfg.drawable
    ensures Slot(dst) in Judge(cfg, b, request, rawId).0.data
       <==> Slot(dst) in b.caches.data || Serves(cfg, b, Select(request, rawId), dst)
  {
  }

  lemma StepFills(cfg: Config, b: Broker, ev: Event, dst: FormatId)
    requires RawKeysPlain(b.caches)
    ensures Slot(dst) in Step(cfg, b, ev).caches.data
       <==> !IsList(ev) && (Slot(dst) in b.caches.data || Serves(cfg, b, ev, dst))
  {
    match ev
    case Select(request, rawId) =>
      if request.owner == cfg.drawable {
        JudgeFills(cfg, b, request, rawId, dst);
      }
    case DataResponse(fail, data) => DrainFills(cfg, data, Start(b), b.pending, dst);
    case _ =>
  }

  /** Event `n` served `dst`, and no format list came after it. */
  ghost predicate ServedAt(cfg: Config, es: seq<Event>, dst: FormatId, n: nat)
    requires n < |es|
  {
    Serves(cfg, Run(cfg, INITIAL, es[..n]), es[n], dst) && forall m | n <= m < |es| :: !IsList(es[m])
  }

  /** Some request was served `dst` since the last format list. */
  ghost predicate ServedSince(cfg: Config, es: seq<Event>, dst: FormatId)
  {
    exists n :: 0 <= n < |es| && ServedAt(cfg, es, dst, n)
  }

  lemma ServedSinceNext(cfg: Config, es: seq<Event>, dst: FormatId)
    requires es != []
    ensures var last := |es| - 1;
            ServedSince(cfg, es, dst)
            <==> !IsList(es[last])
                 && (ServedSince(cfg, es[..last], dst) || Serves(cfg, Run(cfg, INITIAL, es[..last]), es[last], dst))
  {
    var last := |es| - 1;
    var before := es[..last];
    forall n | 0 <= n < last
      ensures ServedAt(cfg, es, dst, n) <==> !IsList(es[last]) && ServedAt(cfg, before, dst, n)
    {
      assert before[..n] == es[..n];
      assert forall m | n <= m < last :: before[m] == es[m];
    }
    assert ServedAt(cfg, es, dst, last)
      <==> Serves(cfg, Run(cfg, INITIAL, before), es[last], dst) && !IsList(es[last]);
    if ServedSince(cfg, before, dst) && !IsList(es[last]) {
      var n :| 0 <= n < last && ServedAt(cfg, before, dst, n);
      assert ServedAt(cfg, es, dst, n);
    }
  }

  /** In every run a slot is filled exactly when a request was served its format since the
      last format list. */
  lemma {:induction false} FilledIffServed(cfg: Config, es: seq<Event>, dst: FormatId)
    ensures Slot(dst) in Run(cfg, INITIAL, es).caches.data <==> ServedSince(cfg, es, dst)
    decreases |es|
  {
    if es != [] {
      var last := |es| - 1;
      assert es[..last + 1] == es;
      FilledIffServed(cfg, es[..last], dst);
      RunNext(cfg, INITIAL, {}, es, last);
      RunKeepsRawKeys(cfg, INITIAL, es[..last]);
      StepFills(cfg, Run(cfg, INITIAL, es[..last]), es[last], dst);
      ServedSinceNext(cfg, es, dst);
    }
  }

  /** In every run, pending requests that read one registered source receive the conversion of
      the response that comes, unless a request was served their destination since the last
      format list: then that response is ignored, and they receive the conversion of an
      earlier one. */
  lemma OwnUnlessServed(cfg: Config, es: seq<Event>, data: seq<byte>, src: FormatId, nt: bool, i: nat)
    requires var pending := Run(cfg, INITIAL, es).pending;
             i < |pending| && SameSource(cfg, pending, src, nt)
    requires data != [] && Registered(cfg, src)
    ensures var b := Run(cfg, INITIAL, es);
            var r, o := RouteOf(cfg, b.pending[i]), Outcomes(cfg, data, Start(b), b.pending)[i];
            if ServedSince(cfg, es, r.dst) then o.Provided? && FromOneOf(cfg, Since(es), r.dst, o.bytes)
            else o == Direct(cfg, r, data)
  {
    var b := Run(cfg, INITIAL, es);
    var r := RouteOf(cfg, b.pending[i]);
    DrainIsDirect(cfg, data, Start(b), b.pending, src, nt, i);
    FilledIffServed(cfg, es, r.dst);
    RunKeepsSourced(cfg, INITIAL, {}, es);
    if ServedSince(cfg, es, r.dst) {
      CutIsFrom(cfg, Since(es), r.dst, b.caches.data[Slot(r.dst)], nt);
    }
  }
}
