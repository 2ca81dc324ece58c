/** The caches behind the selection broker: which bytes equal requests receive while
    one response drains, which later requests the caches answer, and which they never do. */
module SelectionCache {
  import opened Bytes
  import opened ClipboardSystem
  import opened SelectionBroker
  import opened SelectionRuns

  // ----- the drain, place by place -----

  /** What the loop holds when it reaches entry `i`. */
  function StateAt(cfg: Config, data: seq<byte>, d: Drain, es: seq<SelectionResponse>, i: nat): Drain
    requires i <= |es|
  {
    AfterDrain(cfg, data, d, es[..i])
  }

  lemma {:induction false} StateAtNext(cfg: Config, data: seq<byte>, d: Drain, es: seq<SelectionResponse>, i: nat)
    requires i < |es|
    ensures StateAt(cfg, data, d, es, i + 1) == Serve(cfg, data, StateAt(cfg, data, d, es, i), es[i]).0
    decreases i
  {
    assert es[..i + 1][0] == es[0];
    if i == 0 {
      var d' := Serve(cfg, data, d, es[0]).0;
      assert es[..1][1..] == [] && es[..0] == [];
      assert AfterDrain(cfg, data, d', []) == d';
    } else {
      var d' := Serve(cfg, data, d, es[0]).0;
      StateAtNext(cfg, data, d', es[1..], i - 1);
      assert es[..i + 1][1..] == es[1..][..i] && es[..i][1..] == es[1..][..i - 1];
      assert es[..i][0] == es[0];
    }
  }

  lemma {:induction false} OutcomeAt(cfg: Config, data: seq<byte>, d: Drain, es: seq<SelectionResponse>, i: nat)
    requires i < |es|
    ensures Outcomes(cfg, data, d, es)[i] == Serve(cfg, data, StateAt(cfg, data, d, es, i), es[i]).1
    decreases i
  {
    if i == 0 {
      assert es[..0] == [];
    } else {
      OutcomeAt(cfg, data, Serve(cfg, data, d, es[0]).0, es[1..], i - 1);
      assert es[..i][1..] == es[1..][..i - 1] && es[..i][0] == es[0];
    }
  }

  // ----- setting the source once -----

  predicate Usable(cfg: Config, e: SelectionResponse)
  {
    Registered(cfg, RouteOf(cfg, e).src)
  }

  /** The first entry whose source the WinPR clipboard accepts. */
  function FirstUsable(cfg: Config, es: seq<SelectionResponse>): (k: nat)
    ensures k <= |es|
    ensures k < |es| ==> Usable(cfg, es[k])
    ensures forall i | 0 <= i < k :: !Usable(cfg, es[i])
  {
    if es == [] || Usable(cfg, es[0]) then 0 else 1 + FirstUsable(cfg, es[1..])
  }

  lemma {:induction false} SetFromFirstUsable(cfg: Config, data: seq<byte>, d: Drain, es: seq<SelectionResponse>,
                                              i: nat)
    requires data != [] && !d.isSet && i <= |es|
    ensures StateAt(cfg, data, d, es, i).isSet <==> FirstUsable(cfg, es) < i
    decreases i
  {
    if i == 0 {
      assert es[..0] == [];
    } else {
      SetFromFirstUsable(cfg, data, d, es, i - 1);
      StateAtNext(cfg, data, d, es, i - 1);
    }
  }

  lemma SilentBeforeFirstUsable(cfg: Config, data: seq<byte>, d: Drain, es: seq<SelectionResponse>, i: nat)
    requires data != [] && !d.isSet && i < |es|
    ensures Outcomes(cfg, data, d, es)[i] == Silent <==> i < FirstUsable(cfg, es)
  {
    OutcomeAt(cfg, data, d, es, i);
    SetFromFirstUsable(cfg, data, d, es, i);
  }

  // ----- once a slot is settled it stays -----

  /** What an entry bound for `dst` receives in state `d`. */
  function Known(cfg: Config, d: Drain, dst: FormatId, nullTerminated: bool): Outcome
  {
    var hit := Lookup(d.caches.data, Slot(dst));
    match (if hit.Some? then hit else GetData(cfg, d.caches.system, dst))
    case None => Refused
    case Some(v) => Provided(Trunc(nullTerminated, v))
  }

  predicate Settled(cfg: Config, d: Drain, dst: FormatId)
  {
    d.isSet && (Slot(dst) in d.caches.data || GetData(cfg, d.caches.system, dst).None?)
  }

  lemma ServeSettles(cfg: Config, data: seq<byte>, d: Drain, e: SelectionResponse)
    requires data != [] && !e.raw && (d.isSet || Usable(cfg, e))
    ensures var r := RouteOf(cfg, e);
            var (d', o) := Serve(cfg, data, d, e);
            Settled(cfg, d', r.dst) && o == Known(cfg, d', r.dst, r.nullTerminated)
  {
    var r := RouteOf(cfg, e);
    var d1 := EnsureSet(cfg, KeepRaw(d, r.src, data), r.src, data);
    var source := if Slot(r.dst) in d1.caches.data then Some(d1.caches.data[Slot(r.dst)])
                  else GetData(cfg, d1.caches.system, r.dst);
    if source.Some? {
      TruncTwice(r.nullTerminated, source.value);
    }
  }

  lemma ServeKeepsSettled(cfg: Config, data: seq<byte>, d: Drain, e: SelectionResponse, dst: FormatId, nt: bool)
    requires Settled(cfg, d, dst) && (e.raw ==> dst != CF_RAW)
    ensures var d' := Serve(cfg, data, d, e).0;
            Settled(cfg, d', dst) && Known(cfg, d', dst, nt) == Known(cfg, d, dst, nt)
  {
  }

  lemma {:induction false} SettledUntil(cfg: Config, data: seq<byte>, d: Drain, es: seq<SelectionResponse>,
                                        i: nat, j: nat, dst: FormatId, nt: bool)
    requires i <= j <= |es| && Settled(cfg, StateAt(cfg, data, d, es, i), dst)
    requires forall e | e in es :: e.raw ==> dst != CF_RAW
    ensures Settled(cfg, StateAt(cfg, data, d, es, j), dst)
    ensures Known(cfg, StateAt(cfg, data, d, es, j), dst, nt) == Known(cfg, StateAt(cfg, data, d, es, i), dst, nt)
    decreases j - i
  {
    if i < j {
      SettledUntil(cfg, data, d, es, i, j - 1, dst, nt);
      StateAtNext(cfg, data, d, es, j - 1);
      ServeKeepsSettled(cfg, data, StateAt(cfg, data, d, es, j - 1), es[j - 1], dst, nt);
    }
  }

  /** From the first accepted source on, an entry is served what its slot then holds. */
  lemma ServedFromSlot(cfg: Config, data: seq<byte>, d: Drain, es: seq<SelectionResponse>, i: nat)
    requires i < |es| && data != [] && !d.isSet && !es[i].raw && FirstUsable(cfg, es) <= i
    ensures var r, d' := RouteOf(cfg, es[i]), StateAt(cfg, data, d, es, i + 1);
            Settled(cfg, d', r.dst) && Outcomes(cfg, data, d, es)[i] == Known(cfg, d', r.dst, r.nullTerminated)
  {
    OutcomeAt(cfg, data, d, es, i);
    SetFromFirstUsable(cfg, data, d, es, i);
    StateAtNext(cfg, data, d, es, i);
    ServeSettles(cfg, data, StateAt(cfg, data, d, es, i), es[i]);
  }

  lemma SameNameSameRoute(cfg: Config, e: SelectionResponse, f: SelectionResponse)
    requires !e.raw && !f.raw && e.requested.formatName == f.requested.formatName
    requires e.requested.formatToRequest == f.requested.formatToRequest && RouteOf(cfg, e).dst == RouteOf(cfg, f).dst
    ensures RouteOf(cfg, e) == RouteOf(cfg, f)
  {
  }

  lemma ServedAlike(cfg: Config, data: seq<byte>, d: Drain, es: seq<SelectionResponse>, i: nat, j: nat)
    requires i < j < |es| && data != [] && !d.isSet && FirstUsable(cfg, es) <= i
    requires !es[i].raw && !es[j].raw && RouteOf(cfg, es[i]) == RouteOf(cfg, es[j])
    requires forall e | e in es :: e.raw ==> RouteOf(cfg, es[i]).dst != CF_RAW
    ensures Outcomes(cfg, data, d, es)[i] == Outcomes(cfg, data, d, es)[j]
  {
    var r := RouteOf(cfg, es[i]);
    ServedFromSlot(cfg, data, d, es, i);
    ServedFromSlot(cfg, data, d, es, j);
    SettledUntil(cfg, data, d, es, i + 1, j + 1, r.dst, r.nullTerminated);
  }

  /** Set-once soundness. Two parked requests of the same format name and the same
      destination fare alike unless the first accepted source lies between them:
      then the earlier is passed over in silence and the later is served or refused. */
  lemma EqualRequestsFareAlike(cfg: Config, data: seq<byte>, d: Drain, es: seq<SelectionResponse>, i: nat, j: nat)
    requires i < j < |es| && data != [] && !d.isSet
    requires !es[i].raw && !es[j].raw
    requires Matches(es, es[i].requested.formatToRequest)
    requires es[i].requested.formatName == es[j].requested.formatName
    requires RouteOf(cfg, es[i]).dst == RouteOf(cfg, es[j]).dst
    requires forall e | e in es :: e.raw ==> RouteOf(cfg, es[i]).dst != CF_RAW
    ensures Outcomes(cfg, data, d, es)[i] == Outcomes(cfg, data, d, es)[j]
       <==> !(i < FirstUsable(cfg, es) <= j)
  {
    var k := FirstUsable(cfg, es);
    SilentBeforeFirstUsable(cfg, data, d, es, i);
    SilentBeforeFirstUsable(cfg, data, d, es, j);
    if k <= i {
      assert es[i] in es && es[j] in es;
      SameNameSameRoute(cfg, es[i], es[j]);
      ServedAlike(cfg, data, d, es, i, j);
    }
  }

  // ----- what every request receives -----

  /** The first non-raw entry from `k` on that converts to `dst`, or the length. */
  function FirstUse(cfg: Config, es: seq<SelectionResponse>, k: nat, dst: FormatId): (f: nat)
    requires k <= |es|
    ensures k <= f <= |es|
    ensures f < |es| ==> !es[f].raw && RouteOf(cfg, es[f]).dst == dst
    ensures forall i | k <= i < f :: es[i].raw || RouteOf(cfg, es[i]).dst != dst
    decreases |es| - k
  {
    if k == |es| || (!es[k].raw && RouteOf(cfg, es[k]).dst == dst) then k else FirstUse(cfg, es, k + 1, dst)
  }

  /** The clipboard object once the first accepted source was set. */
  function SetOnce(cfg: Config, data: seq<byte>, es: seq<SelectionResponse>): System
    requires FirstUsable(cfg, es) < |es|
  {
    SetData(cfg, RouteOf(cfg, es[FirstUsable(cfg, es)]).src, data).value
  }

  /** What the slot of `dst` holds when the loop reaches entry `i`: what it held at first, or
      what the first entry to use it put there. */
  function SlotAt(cfg: Config, data: seq<byte>, c: Caches, es: seq<SelectionResponse>, i: nat, dst: FormatId)
    : Option<seq<byte>>
    requires i <= |es|
  {
    var k := FirstUsable(cfg, es);
    if Slot(dst) in c.data then Some(c.data[Slot(dst)])
    else if i <= k || FirstUse(cfg, es, k, dst) >= i then None
    else
      var first := es[FirstUse(cfg, es, k, dst)];
      match GetData(cfg, SetOnce(cfg, data, es), dst)
      case None => None
      case Some(v) => Some(Trunc(RouteOf(cfg, first).nullTerminated, v))
  }

  lemma {:induction false} SystemAt(cfg: Config, data: seq<byte>, d: Drain, es: seq<SelectionResponse>, i: nat)
    requires data != [] && !d.isSet && i <= |es| && FirstUsable(cfg, es) < i
    ensures StateAt(cfg, data, d, es, i).caches.system == SetOnce(cfg, data, es)
    decreases i
  {
    StateAtNext(cfg, data, d, es, i - 1);
    SetFromFirstUsable(cfg, data, d, es, i - 1);
    if FirstUsable(cfg, es) < i - 1 {
      SystemAt(cfg, data, d, es, i - 1);
    }
  }

  lemma ServeBeforeUsable(cfg: Config, data: seq<byte>, d: Drain, e: SelectionResponse)
    requires data != [] && !d.isSet && !Usable(cfg, e)
    ensures Serve(cfg, data, d, e).0.caches.data == d.caches.data
  {
  }

  /** One turn once the source is set, or by the entry that sets it. */
  lemma ServeSlot(cfg: Config, data: seq<byte>, d: Drain, e: SelectionResponse, dst: FormatId)
    requires data != [] && (d.isSet || Usable(cfg, e)) && (e.raw ==> dst != CF_RAW)
    ensures var r, d' := RouteOf(cfg, e), Serve(cfg, data, d, e).0;
            Lookup(d'.caches.data, Slot(dst))
            == if Slot(dst) in d.caches.data then Some(d.caches.data[Slot(dst)])
               else if e.raw || r.dst != dst || GetData(cfg, d'.caches.system, dst).None? then None
               else Some(Trunc(r.nullTerminated, GetData(cfg, d'.caches.system, dst).value))
  {
  }

  /** One entry further, from the first accepted source on. */
  lemma SlotAtNext(cfg: Config, data: seq<byte>, d: Drain, es: seq<SelectionResponse>, i: nat, dst: FormatId)
    requires data != [] && !d.isSet && FirstUsable(cfg, es) <= i < |es| && (es[i].raw ==> dst != CF_RAW)
    requires Lookup(StateAt(cfg, data, d, es, i).caches.data, Slot(dst)) == SlotAt(cfg, data, d.caches, es, i, dst)
    ensures Lookup(StateAt(cfg, data, d, es, i + 1).caches.data, Slot(dst))
         == SlotAt(cfg, data, d.caches, es, i + 1, dst)
  {
    StateAtNext(cfg, data, d, es, i);
    SetFromFirstUsable(cfg, data, d, es, i);
    ServeSlot(cfg, data, StateAt(cfg, data, d, es, i), es[i], dst);
    SystemAt(cfg, data, d, es, i + 1);
  }

  lemma {:induction false} SlotIsAt(cfg: Config, data: seq<byte>, d: Drain, es: seq<SelectionResponse>, i: nat,
                                    dst: FormatId)
    requires data != [] && !d.isSet && i <= |es| && forall e | e in es :: e.raw ==> dst != CF_RAW
    ensures Lookup(StateAt(cfg, data, d, es, i).caches.data, Slot(dst)) == SlotAt(cfg, data, d.caches, es, i, dst)
    decreases i
  {
    if i == 0 {
      assert es[..0] == [];
    } else {
      assert es[i - 1] in es;
      SlotIsAt(cfg, data, d, es, i - 1, dst);
      if i - 1 < FirstUsable(cfg, es) {
        StateAtNext(cfg, data, d, es, i - 1);
        SetFromFirstUsable(cfg, data, d, es, i - 1);
        ServeBeforeUsable(cfg, data, StateAt(cfg, data, d, es, i - 1), es[i - 1]);
      } else {
        SlotAtNext(cfg, data, d, es, i - 1, dst);
      }
    }
  }

  /** What an entry receives that finds this in its slot and this in the clipboard object. */
  function Given(cfg: Config, slot: Option<seq<byte>>, sys: System, r: Route): Outcome
  {
    match (if slot.Some? then slot else GetData(cfg, sys, r.dst))
    case None => Refused
    case Some(v) => Provided(Trunc(r.nullTerminated, v))
  }

  lemma ServeGives(cfg: Config, data: seq<byte>, d: Drain, e: SelectionResponse)
    requires data != [] && !e.raw && (d.isSet || Usable(cfg, e))
    ensures var (d', o) := Serve(cfg, data, d, e);
            o == Given(cfg, Lookup(d.caches.data, Slot(RouteOf(cfg, e).dst)), d'.caches.system, RouteOf(cfg, e))
  {
  }

  /** The whole drain of one response, entry by entry, whatever is pending and whatever the
      caches hold: nothing before the first accepted source; from there on what the slot held
      at first, else the conversion from that one source as the first entry for the slot cut
      it. */
  lemma DrainExact(cfg: Config, data: seq<byte>, d: Drain, es: seq<SelectionResponse>, i: nat)
    requires data != [] && !d.isSet && i < |es| && !es[i].raw
    requires forall e | e in es :: e.raw ==> RouteOf(cfg, es[i]).dst != CF_RAW
    ensures var r, k := RouteOf(cfg, es[i]), FirstUsable(cfg, es);
            Outcomes(cfg, data, d, es)[i]
            == if i < k then Silent
               else Given(cfg, SlotAt(cfg, data, d.caches, es, i, r.dst), SetOnce(cfg, data, es), r)
  {
    SilentBeforeFirstUsable(cfg, data, d, es, i);
    if FirstUsable(cfg, es) <= i {
      OutcomeAt(cfg, data, d, es, i);
      SetFromFirstUsable(cfg, data, d, es, i);
      StateAtNext(cfg, data, d, es, i);
      SystemAt(cfg, data, d, es, i + 1);
      SlotIsAt(cfg, data, d, es, i, RouteOf(cfg, es[i]).dst);
      ServeGives(cfg, data, StateAt(cfg, data, d, es, i), es[i]);
    }
  }

  // ----- when the cached drain is the plain conversion -----

  /** What an entry would receive if its data were converted afresh. */
  function Direct(cfg: Config, r: Route, data: seq<byte>): Outcome
  {
    match SetData(cfg, r.src, data)
    case None => Silent
    case Some(sys) =>
      match GetData(cfg, sys, r.dst)
      case None => Refused
      case Some(v) => Provided(Trunc(r.nullTerminated, v))
  }

  /** Parked requests that read the same source. */
  ghost predicate SameSource(cfg: Config, es: seq<SelectionResponse>, src: FormatId, nt: bool)
  {
    forall e | e in es :: !e.raw && RouteOf(cfg, e).src == src && RouteOf(cfg, e).nullTerminated == nt
  }

  /** The drain of requests that read one registered source, in any state of the caches: a
      request whose slot was filled before receives what the slot holds and the response is
      ignored; any other receives what converting the response for it alone would give. */
  lemma DrainIsDirect(cfg: Config, data: seq<byte>, d: Drain, es: seq<SelectionResponse>, src: FormatId, nt: bool,
                      i: nat)
    requires data != [] && i < |es| && Registered(cfg, src) && !d.isSet && SameSource(cfg, es, src, nt)
    ensures var r := RouteOf(cfg, es[i]);
            var o := Outcomes(cfg, data, d, es)[i];
            var cached := Lookup(d.caches.data, Slot(r.dst));
            o == if cached.Some? then Provided(Trunc(nt, cached.value)) else Direct(cfg, r, data)
  {
    var r := RouteOf(cfg, es[i]);
    assert es[0] in es && es[i] in es;
    DrainExact(cfg, data, d, es, i);
    assert FirstUsable(cfg, es) == 0;
    var sys, f := SetOnce(cfg, data, es), FirstUse(cfg, es, 0, r.dst);
    assert f < |es| && es[f] in es;
    if GetData(cfg, sys, r.dst).Some? {
      TruncTwice(nt, GetData(cfg, sys, r.dst).value);
    }
  }

  // ----- raw transfers never hit the cache -----

  /** Received data is filed under plain format ids, while raw requests look it up
      under slot numbers. */
  ghost predicate RawKeysPlain(c: Caches)
  {
    forall k | k in c.raw :: 0 < k < 0x1_0000_0000
  }

  lemma {:induction false} DrainKeepsRawKeys(cfg: Config, data: seq<byte>, d: Drain, es: seq<SelectionResponse>)
    requires RawKeysPlain(d.caches)
    ensures RawKeysPlain(AfterDrain(cfg, data, d, es).caches)
    decreases |es|
  {
    if es != [] {
      DrainKeepsRawKeys(cfg, data, Serve(cfg, data, d, es[0]).0, es[1..]);
    }
  }

  lemma JudgeKeepsRawKeys(cfg: Config, b: Broker, request: SelectionRequest, rawId: Option<FormatId>)
    ensures Judge(cfg, b, request, rawId).0.raw == b.caches.raw
  {
  }

  lemma StepKeepsRawKeys(cfg: Config, b: Broker, ev: Event)
    requires RawKeysPlain(b.caches)
    ensures RawKeysPlain(Step(cfg, b, ev).caches)
  {
    match ev
    case Select(request, rawId) => JudgeKeepsRawKeys(cfg, b, request, rawId);
    case DataResponse(fail, data) => DrainKeepsRawKeys(cfg, data, Start(b), b.pending);
    case _ =>
  }

  lemma {:induction false} RunKeepsRawKeys(cfg: Config, b: Broker, es: seq<Event>)
    requires RawKeysPlain(b.caches)
    ensures RawKeysPlain(Run(cfg, b, es).caches)
    decreases |es|
  {
    if es != [] {
      StepKeepsRawKeys(cfg, b, es[0]);
      RunKeepsRawKeys(cfg, Step(cfg, b, es[0]), es[1..]);
    }
  }

  /** A request for the raw data of a server format. */
  predicate IsRawRequest(cfg: Config, b: Broker, request: SelectionRequest, rawId: Option<FormatId>)
  {
    && request.target != cfg.timestampAtom
    && request.target != cfg.targetsAtom
    && request.requestor != cfg.drawable
    && rawId.Some?
    && ServerFormatByAtom(cfg.clientFormats, b.serverFormats, request.target).Some?
    && ServerFormatByAtom(cfg.clientFormats, b.serverFormats, request.target).value.formatId == CF_RAW
  }

  /** However the run went, a raw request is parked, even for data already received. */
  lemma RawRequestsAlwaysPark(cfg: Config, es: seq<Event>, request: SelectionRequest, rawId: Option<FormatId>)
    requires IsRawRequest(cfg, Run(cfg, INITIAL, es), request, rawId)
    ensures Judge(cfg, Run(cfg, INITIAL, es), request, rawId).1.Park?
  {
    RunKeepsRawKeys(cfg, INITIAL, es);
  }

  // ----- a served target is served again from the cache -----

  /** A parked, non-raw request still agrees with the format tables. */
  predicate Current(cfg: Config, servers: seq<ServerFormat>, e: SelectionResponse)
  {
    var client := ClientFormatByAtom(cfg.clientFormats, e.event.target);
    var server := ServerFormatByAtom(cfg.clientFormats, servers, e.event.target);
    && client.Some? && server.Some?
    && e.event.target != cfg.timestampAtom && e.event.target != cfg.targetsAtom
    && (!e.raw ==> e.requested == RequestedFormat(server.value.formatId, DstForRequest(cfg, client.value),
                                                  client.value.formatName))
  }

  ghost predicate AllCurrent(cfg: Config, b: Broker)
  {
    && (forall e | e in b.pending :: Current(cfg, b.serverFormats, e))
    && (forall e | e in b.queued :: Current(cfg, b.serverFormats, e))
  }

  lemma StepKeepsCurrent(cfg: Config, b: Broker, ev: Event)
    requires AllCurrent(cfg, b)
    ensures AllCurrent(cfg, Step(cfg, b, ev))
  {
    if ev.Select? && ev.request.owner == cfg.drawable {
      var (caches, v) := Judge(cfg, b, ev.request, ev.rawId);
      assert v.Park? ==> Current(cfg, b.serverFormats, v.entry);
    } else if ev.DataResponse? && b.queued != [] {
      PartitionMembers(b.queued, b.queued[0].requested.formatToRequest);
    }
  }

  lemma {:induction false} RunKeepsCurrent(cfg: Config, b: Broker, es: seq<Event>)
    requires AllCurrent(cfg, b)
    ensures AllCurrent(cfg, Run(cfg, b, es))
    decreases |es|
  {
    if es != [] {
      StepKeepsCurrent(cfg, b, es[0]);
      RunKeepsCurrent(cfg, Step(cfg, b, es[0]), es[1..]);
    }
  }

  /** The drain files converted data where a new request looks for it. */
  lemma RoutesAgree(cfg: Config, servers: seq<ServerFormat>, e: SelectionResponse)
    requires Current(cfg, servers, e) && !e.raw
    ensures RouteOf(cfg, e).dst == DstForRequest(cfg, ClientFormatByAtom(cfg.clientFormats, e.event.target).value)
  {
  }

  lemma FilledByServing(cfg: Config, data: seq<byte>, d: Drain, es: seq<SelectionResponse>, i: nat, bytes: seq<byte>)
    requires i < |es| && !es[i].raw && Outcomes(cfg, data, d, es)[i] == Provided(bytes)
    ensures var r, d' := RouteOf(cfg, es[i]), StateAt(cfg, data, d, es, i + 1);
            && Slot(r.dst) in d'.caches.data
            && (Slot(r.dst) !in StateAt(cfg, data, d, es, i).caches.data ==> d'.caches.data[Slot(r.dst)] == bytes)
  {
    OutcomeAt(cfg, data, d, es, i);
    StateAtNext(cfg, data, d, es, i);
  }

  lemma {:induction false} SlotKept(cfg: Config, data: seq<byte>, d: Drain, es: seq<SelectionResponse>,
                                    i: nat, j: nat, dst: FormatId)
    requires i <= j <= |es| && Slot(dst) in StateAt(cfg, data, d, es, i).caches.data
    ensures Slot(dst) in StateAt(cfg, data, d, es, j).caches.data
    decreases j - i
  {
    if i < j {
      SlotKept(cfg, data, d, es, i, j - 1, dst);
      StateAtNext(cfg, data, d, es, j - 1);
    }
  }

  /** What a slot holds after the entry at `i` was served from it stays to the end. */
  lemma DrainKeepsSlot(cfg: Config, data: seq<byte>, d: Drain, es: seq<SelectionResponse>, i: nat, bytes: seq<byte>)
    returns (slot: seq<byte>)
    requires i < |es| && !es[i].raw && data != [] && !d.isSet
    requires forall e | e in es :: e.raw ==> RouteOf(cfg, es[i]).dst != CF_RAW
    requires Outcomes(cfg, data, d, es)[i] == Provided(bytes)
    ensures var r := RouteOf(cfg, es[i]);
            && Lookup(AfterDrain(cfg, data, d, es).caches.data, Slot(r.dst)) == Some(slot)
            && Trunc(r.nullTerminated, slot) == bytes
            && (Slot(r.dst) !in StateAt(cfg, data, d, es, i).caches.data ==> slot == bytes)
  {
    var r := RouteOf(cfg, es[i]);
    var d' := StateAt(cfg, data, d, es, i + 1);
    SilentBeforeFirstUsable(cfg, data, d, es, i);
    ServedFromSlot(cfg, data, d, es, i);
    FilledByServing(cfg, data, d, es, i, bytes);
    slot := d'.caches.data[Slot(r.dst)];
    SettledUntil(cfg, data, d, es, i + 1, |es|, r.dst, false);
    assert es[..|es|] == es;
    assert Known(cfg, d', r.dst, false) == Provided(slot);
    SlotKept(cfg, data, d, es, i + 1, |es|, r.dst);
  }

  /** After a response served a pending request, wherever it stood, any further request for
      its target is answered at once and without a new data request: with what the slot
      holds, which cut like the first reply is the first reply, and is that reply itself if
      the request was the first to fill the slot. */
  lemma ServedAgainAtOnce(cfg: Config, b: Broker, data: seq<byte>, i: nat, bytes: seq<byte>,
                          request: SelectionRequest, rawId: Option<FormatId>) returns (slot: seq<byte>)
    requires AllCurrent(cfg, b) && i < |b.pending| && !b.pending[i].raw && data != []
    requires forall e | e in b.pending :: e.raw ==> RouteOf(cfg, b.pending[i]).dst != CF_RAW
    requires Outcomes(cfg, data, Start(b), b.pending)[i] == Provided(bytes)
    requires request.owner == cfg.drawable && request.requestor != cfg.drawable
    requires request.target == b.pending[i].event.target
    requires !IsRawRequest(cfg, b, request, rawId)
    ensures var b' := ProcessDataResponse(cfg, b, false, data);
            var reply := Reply(|b'.received|, EventFor(request, request.property), ProvideData(request.property, slot));
            ProcessSelectionRequest(cfg, b', request, rawId) ==
            b'.(received := b'.received + [request], replies := b'.replies + [reply])
    ensures var r := RouteOf(cfg, b.pending[i]);
            && Trunc(r.nullTerminated, slot) == bytes
            && (Slot(r.dst) !in StateAt(cfg, data, Start(b), b.pending, i).caches.data ==> slot == bytes)
  {
    var e := b.pending[i];
    var b' := ProcessDataResponse(cfg, b, false, data);
    assert Current(cfg, b.serverFormats, e);
    RoutesAgree(cfg, b.serverFormats, e);
    slot := DrainKeepsSlot(cfg, data, Start(b), b.pending, i, bytes);
    assert b'.serverFormats == b.serverFormats && b'.caches == AfterDrain(cfg, data, Start(b), b.pending).caches;
    assert Judge(cfg, b', request, rawId)
        == (b'.caches,
            Now(Reply(|b'.received|, EventFor(request, request.property), ProvideData(request.property, slot))));
  }

  // ----- with the format table of the client no request is passed over -----

  /** Unnamed formats and every registered name have known ids, and one atom has one name. */
  ghost predicate TableSound(cfg: Config)
  {
    && (forall f | f in cfg.clientFormats && f.formatName.None? :: Registered(cfg, f.formatToRequest))
    && (forall name | name in cfg.formatIds :: Registered(cfg, cfg.formatIds[name]))
    && (forall f, g | f in cfg.clientFormats && g in cfg.clientFormats && f.atom == g.atom ::
          f.formatName == g.formatName)
  }

  lemma CurrentIsUsable(cfg: Config, servers: seq<ServerFormat>, e: SelectionResponse)
    requires TableSound(cfg) && Current(cfg, servers, e)
    ensures Usable(cfg, e)
  {
    if !e.raw && e.requested.formatName.None? {
      ServerFormatIff(cfg.clientFormats, servers, e.event.target);
    }
  }

  /** In every reachable state equal pending requests fare alike. */
  lemma ReachableRequestsFareAlike(cfg: Config, evs: seq<Event>, data: seq<byte>, i: nat, j: nat)
    requires TableSound(cfg)
    requires var es := Run(cfg, INITIAL, evs).pending;
             && i < j < |es|
             && !es[i].raw && !es[j].raw
             && es[i].requested.formatName == es[j].requested.formatName
             && RouteOf(cfg, es[i]).dst == RouteOf(cfg, es[j]).dst
             && (forall e | e in es :: e.raw ==> RouteOf(cfg, es[i]).dst != CF_RAW)
    ensures var b := Run(cfg, INITIAL, evs);
            var os := Outcomes(cfg, data, Start(b), b.pending);
            os[i] == os[j] && (data != [] ==> os[i] != Silent)
  {
    var b := Run(cfg, INITIAL, evs);
    RunKeepsCurrent(cfg, INITIAL, evs);
    RunKeepsQueue(cfg, INITIAL, evs);
    if data == [] {
      OutcomeAt(cfg, data, Start(b), b.pending, i);
      OutcomeAt(cfg, data, Start(b), b.pending, j);
    } else {
      CurrentIsUsable(cfg, b.serverFormats, b.pending[0]);
      assert FirstUsable(cfg, b.pending) == 0;
      EqualRequestsFareAlike(cfg, data, Start(b), b.pending, i, j);
      SilentBeforeFirstUsable(cfg, data, Start(b), b.pending, i);
    }
  }
}
