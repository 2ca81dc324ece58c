/** Local applications pasting from the server: X selection requests are answered
    from caches or parked until the server sends the data. This module gives the
    value of the broker after each event; XfClipboard holds the handlers. */
module SelectionBroker {
  import opened Bytes
  import opened ClipboardSystem

  datatype SelectionRequest = SelectionRequest(
    owner: Window, requestor: Window, selection: Atom, target: Atom, property: Atom, time: nat)

  /** The SelectionNotify event a request is answered with. */
  datatype SelectionEvent = SelectionEvent(
    requestor: Window, selection: Atom, target: Atom, property: Atom, time: nat)

  datatype RequestedFormat = RequestedFormat(
    formatToRequest: FormatId, localFormat: FormatId, formatName: Option<string>)

  /** A parked request. `ticket` is the identity of the heap object. */
  datatype SelectionResponse = SelectionResponse(
    ticket: nat, event: SelectionEvent, requested: RequestedFormat, raw: bool)

  datatype Payload = NoPayload | OwnershipTime | TargetList | Data(bytes: seq<byte>)

  /** What a requestor sees: the property written on its window, then the event. */
  datatype Reply = Reply(ticket: nat, event: SelectionEvent, payload: Payload)

  datatype DataRequest = DataRequest(serial: nat, formatId: FormatId)

  /** The WinPR clipboard and the two hash tables of converted and of received data. */
  datatype Caches = Caches(system: System, data: map<nat, seq<byte>>, raw: map<nat, seq<byte>>)

  const NO_CACHES := Caches(EMPTY_SYSTEM, map[], map[])

  /** `received`, `replies`, `dropped`, `inFlight` and `sent` record what the X server
      and the RDP server have seen; `inFlight` is oldest first. */
  datatype Broker = Broker(
    serverFormats: seq<ServerFormat>,
    pending: seq<SelectionResponse>,
    queued: seq<SelectionResponse>,
    caches: Caches,
    received: seq<SelectionRequest>,
    replies: seq<Reply>,
    dropped: seq<SelectionResponse>,
    inFlight: seq<DataRequest>,
    sent: nat)

  const INITIAL := Broker([], [], [], NO_CACHES, [], [], [], [], 0)

  /** `SystemSet` is the other direction of the clipboard reusing the WinPR object. */
  datatype Event =
    | Select(request: SelectionRequest, rawId: Option<FormatId>)
    | DataResponse(fail: bool, data: seq<byte>)
    | ServerFormatList(formats: seq<ServerFormat>)
    | ClientFormatList
    | SystemSet(system: System)

  /** format_to_cache_slot */
  function Slot(f: FormatId): nat
  {
    0x1_0000_0000 + f
  }

  function Lookup(table: map<nat, seq<byte>>, key: nat): Option<seq<byte>>
  {
    if key != 0 && key in table then Some(table[key]) else None
  }

  /** HashTable_Insert refuses the null key. */
  function Insert(table: map<nat, seq<byte>>, key: nat, value: seq<byte>): map<nat, seq<byte>>
  {
    if key == 0 then table else table[key := value]
  }

  function ProvideData(property: Atom, bytes: seq<byte>): Payload
  {
    if property == NONE then NoPayload else Data(bytes)
  }

  function EventFor(request: SelectionRequest, property: Atom): SelectionEvent
  {
    SelectionEvent(request.requestor, request.selection, request.target, property, request.time)
  }

  // ----- a selection request -----

  /** convert_data_from_existing_raw_data, with the lookup that guards it. */
  function ConvertFromRaw(cfg: Config, c: Caches, f: ClientFormat): (Caches, Option<seq<byte>>)
  {
    var (src, nullTerminated) := SrcForRequest(cfg, f);
    var dst := DstForRequest(cfg, f);
    var raw := Lookup(c.raw, src);
    if raw.None? || raw.value == [] then (c, None) else
    match SetData(cfg, src, raw.value)
    case None => (c, None)
    case Some(sys) =>
      match GetData(cfg, sys, dst)
      case None => (c.(system := sys), None)
      case Some(v) =>
        var w := Trunc(nullTerminated, v);
        (c.(system := sys, data := Insert(c.data, Slot(dst), w)), Some(w))
  }

  /** A request is answered on the spot or parked. */
  datatype Verdict = Now(reply: Reply) | Park(entry: SelectionResponse)

  function JudgeFormat(cfg: Config, c: Caches, ticket: nat, request: SelectionRequest,
                       server: ServerFormat, client: ClientFormat, rawId: Option<FormatId>): (Caches, Verdict)
  {
    var raw := server.formatId == CF_RAW && rawId.Some?;
    var formatId := if raw then rawId.value else server.formatId;
    var dst := DstForRequest(cfg, client);
    var hit := if raw then Lookup(c.raw, Slot(formatId)) else Lookup(c.data, Slot(dst));
    var (c', cached) := if hit.None? && !raw then ConvertFromRaw(cfg, c, client) else (c, hit);
    var event := EventFor(request, request.property);
    match cached
    case Some(bytes) => (c', Now(Reply(ticket, event, ProvideData(request.property, bytes))))
    case None =>
      (c', Park(SelectionResponse(ticket, event, RequestedFormat(formatId, dst, client.formatName), raw)))
  }

  function Judge(cfg: Config, b: Broker, request: SelectionRequest, rawId: Option<FormatId>): (Caches, Verdict)
  {
    var ticket := |b.received|;
    var event := EventFor(request, request.property);
    var marked := request.property != NONE;
    if request.target == cfg.timestampAtom then
      (b.caches, Now(Reply(ticket, event, if marked then OwnershipTime else NoPayload)))
    else if request.target == cfg.targetsAtom then
      (b.caches, Now(Reply(ticket, event, if marked then TargetList else NoPayload)))
    else
      var server := ServerFormatByAtom(cfg.clientFormats, b.serverFormats, request.target);
      var client := ClientFormatByAtom(cfg.clientFormats, request.target);
      if server.None? || client.None? || request.requestor == cfg.drawable then
        (b.caches, Now(Reply(ticket, EventFor(request, NONE), NoPayload)))
      else
        JudgeFormat(cfg, b.caches, ticket, request, server.value, client.value, rawId)
  }

  predicate Matches(pending: seq<SelectionResponse>, f: FormatId)
  {
    forall e | e in pending :: e.requested.formatToRequest == f
  }

  function SendDataRequest(b: Broker, f: FormatId): Broker
  {
    b.(inFlight := b.inFlight + [DataRequest(b.sent, f)], sent := b.sent + 1)
  }

  /** Join the group being fetched, start one, or wait behind it. */
  function Defer(b: Broker, e: SelectionResponse): Broker
  {
    if b.pending == [] then
      SendDataRequest(b.(pending := [e]), e.requested.formatToRequest)
    else if Matches(b.pending, e.requested.formatToRequest) then
      b.(pending := b.pending + [e])
    else
      b.(queued := b.queued + [e])
  }

  function Apply(b: Broker, v: Verdict): Broker
  {
    match v
    case Now(reply) => b.(replies := b.replies + [reply])
    case Park(entry) => Defer(b, entry)
  }

  /** xf_cliprdr_process_selection_request */
  function ProcessSelectionRequest(cfg: Config, b: Broker, request: SelectionRequest, rawId: Option<FormatId>): Broker
  {
    if request.owner != cfg.drawable then b else
    var (caches, verdict) := Judge(cfg, b, request, rawId);
    Apply(b.(received := b.received + [request], caches := caches), verdict)
  }

  // ----- a data response -----

  /** Where a parked request takes its data from, where it converts it to and whether
      the result is a string. */
  datatype Route = Route(src: FormatId, dst: FormatId, nullTerminated: bool)

  function RouteOf(cfg: Config, e: SelectionResponse): Route
  {
    if e.raw then Route(CF_RAW, CF_RAW, false) else
    match e.requested.formatName
    case None =>
      Route(e.requested.formatToRequest, e.requested.localFormat, IsText(e.requested.formatToRequest))
    case Some(name) =>
      if name == HTML_FORMAT then
        Route(FormatIdOf(cfg, HTML_FORMAT), FormatIdOf(cfg, MIME_HTML), true)
      else if name == FILE_GROUP_DESCRIPTOR then
        var target := ClientFormatByAtom(cfg.clientFormats, e.event.target);
        Route(FormatIdOf(cfg, FILE_GROUP_DESCRIPTOR),
              if target.None? then FormatIdOf(cfg, MIME_URI_LIST) else target.value.localFormat,
              true)
      else
        Route(0, e.requested.localFormat, false)
  }

  /** `Silent` leaves the property of the event but writes nothing to it. */
  datatype Outcome = Silent | Refused | Provided(bytes: seq<byte>)

  function ReplyFor(e: SelectionResponse, o: Outcome): Reply
  {
    match o
    case Silent => Reply(e.ticket, e.event, NoPayload)
    case Refused => Reply(e.ticket, e.event.(property := NONE), NoPayload)
    case Provided(bytes) => Reply(e.ticket, e.event, ProvideData(e.event.property, bytes))
  }

  /** What the loop over the parked requests carries from one to the next. */
  datatype Drain = Drain(caches: Caches, isSet: bool, rawCached: bool)

  /** The copy of the server's bytes kept for later conversions. */
  function KeepRaw(d: Drain, src: FormatId, data: seq<byte>): Drain
  {
    if d.rawCached || src == 0 then d
    else Drain(d.caches.(raw := Insert(d.caches.raw, src, data)), d.isSet, true)
  }

  /** Source data is handed to the WinPR clipboard until that succeeds once. */
  function EnsureSet(cfg: Config, d: Drain, src: FormatId, data: seq<byte>): Drain
  {
    if d.isSet then d else
    match SetData(cfg, src, data)
    case None => d
    case Some(sys) => d.(caches := d.caches.(system := sys), isSet := true)
  }

  function Fetch(cfg: Config, d: Drain, r: Route, raw: bool): (Drain, Outcome)
  {
    var c := d.caches;
    var hit := if raw then Lookup(c.raw, Slot(r.src)) else Lookup(c.data, Slot(r.dst));
    match (if hit.Some? then hit else GetData(cfg, c.system, r.dst))
    case None => (d, Refused)
    case Some(v) =>
      var w := Trunc(r.nullTerminated, v);
      (if hit.Some? then d else d.(caches := c.(data := Insert(c.data, Slot(r.dst), w))), Provided(w))
  }

  /** One turn of the loop at lines 2342-2574. */
  function Serve(cfg: Config, data: seq<byte>, d: Drain, e: SelectionResponse): (Drain, Outcome)
  {
    if data == [] then (d, Silent) else
    var r := RouteOf(cfg, e);
    var d1 := EnsureSet(cfg, KeepRaw(d, r.src, data), r.src, data);
    if !d1.isSet then (d1, Silent) else Fetch(cfg, d1, r, e.raw)
  }

  function Outcomes(cfg: Config, data: seq<byte>, d: Drain, es: seq<SelectionResponse>): (os: seq<Outcome>)
    ensures |os| == |es|
    decreases |es|
  {
    if es == [] then [] else
    var (d', o) := Serve(cfg, data, d, es[0]);
    [o] + Outcomes(cfg, data, d', es[1..])
  }

  function AfterDrain(cfg: Config, data: seq<byte>, d: Drain, es: seq<SelectionResponse>): Drain
    decreases |es|
  {
    if es == [] then d else AfterDrain(cfg, data, Serve(cfg, data, d, es[0]).0, es[1..])
  }

  function Replies(es: seq<SelectionResponse>, os: seq<Outcome>): (rs: seq<Reply>)
    requires |es| == |os|
    ensures |rs| == |es|
    ensures forall i | 0 <= i < |es| :: rs[i] == ReplyFor(es[i], os[i])
  {
    seq(|es|, i requires 0 <= i < |es| => ReplyFor(es[i], os[i]))
  }

  /** The drain of a non-empty list is one turn and the drain of the rest. */
  lemma DrainHead(cfg: Config, data: seq<byte>, d: Drain, es: seq<SelectionResponse>)
    requires es != []
    ensures var (d', o) := Serve(cfg, data, d, es[0]);
            && AfterDrain(cfg, data, d, es) == AfterDrain(cfg, data, d', es[1..])
            && Replies(es, Outcomes(cfg, data, d, es))
               == [ReplyFor(es[0], o)] + Replies(es[1..], Outcomes(cfg, data, d', es[1..]))
  {
  }

  function Start(b: Broker): Drain
  {
    Drain(b.caches, false, false)
  }

  /** Answer everything that is pending. */
  function DrainPending(cfg: Config, b: Broker, fail: bool, data: seq<byte>): Broker
  {
    if fail then
      b.(replies := b.replies + Replies(b.pending, seq(|b.pending|, _ => Refused)), pending := [])
    else
      b.(replies := b.replies + Replies(b.pending, Outcomes(cfg, data, Start(b), b.pending)),
         pending := [], caches := AfterDrain(cfg, data, Start(b), b.pending).caches)
  }

  function WithFormat(es: seq<SelectionResponse>, f: FormatId): (r: seq<SelectionResponse>)
    ensures |r| <= |es|
  {
    if es == [] then []
    else (if es[0].requested.formatToRequest == f then [es[0]] else []) + WithFormat(es[1..], f)
  }

  function WithoutFormat(es: seq<SelectionResponse>, f: FormatId): (r: seq<SelectionResponse>)
    ensures |r| <= |es|
  {
    if es == [] then []
    else (if es[0].requested.formatToRequest != f then [es[0]] else []) + WithoutFormat(es[1..], f)
  }

  lemma {:induction false} PartitionMembers(es: seq<SelectionResponse>, f: FormatId)
    ensures forall e :: e in WithFormat(es, f) <==> e in es && e.requested.formatToRequest == f
    ensures forall e :: e in WithoutFormat(es, f) <==> e in es && e.requested.formatToRequest != f
  {
    if es != [] {
      PartitionMembers(es[1..], f);
      assert forall e :: e in es <==> e == es[0] || e in es[1..];
    }
  }

  lemma {:induction false} WithoutAppend(q: seq<SelectionResponse>, x: SelectionResponse, g: FormatId)
    ensures WithoutFormat(q + [x], g)
         == WithoutFormat(q, g) + if x.requested.formatToRequest == g then [] else [x]
  {
    if q != [] {
      assert (q + [x])[1..] == q[1..] + [x];
      WithoutAppend(q[1..], x, g);
    } else {
      assert [] + [x] == [x] && [x][1..] == [];
    }
  }

  lemma {:induction false} WithAppend(q: seq<SelectionResponse>, x: SelectionResponse, g: FormatId)
    ensures WithFormat(q + [x], g)
         == WithFormat(q, g) + if x.requested.formatToRequest == g then [x] else []
  {
    if q != [] {
      assert (q + [x])[1..] == q[1..] + [x];
      WithAppend(q[1..], x, g);
    } else {
      assert [] + [x] == [x] && [x][1..] == [];
    }
  }

  /** One turn of the in-place partition, as the queue looks with `seen` entries passed. */
  lemma PartitionTurn(all: seq<SelectionResponse>, seen: nat, f: FormatId)
    requires seen < |all|
    ensures var kept, x := WithoutFormat(all[..seen], f), all[seen];
            var q := kept + all[seen..];
            && q[|kept|] == x
            && if x.requested.formatToRequest == f then
                 && WithFormat(all[..seen + 1], f) == WithFormat(all[..seen], f) + [x]
                 && WithoutFormat(all[..seen + 1], f) == kept
                 && q[..|kept|] + q[|kept| + 1..] == kept + all[seen + 1..]
               else
                 && WithFormat(all[..seen + 1], f) == WithFormat(all[..seen], f)
                 && WithoutFormat(all[..seen + 1], f) == kept + [x]
                 && q == kept + [x] + all[seen + 1..]
  {
    assert all[..seen + 1] == all[..seen] + [all[seen]];
    WithAppend(all[..seen], all[seen], f);
    WithoutAppend(all[..seen], all[seen], f);
  }

  /** Move the whole group of the oldest queued format across and ask for it. */
  function PromoteQueued(b: Broker): Broker
  {
    if b.queued == [] then b else
    var f := b.queued[0].requested.formatToRequest;
    SendDataRequest(
      b.(pending := b.pending + WithFormat(b.queued, f), queued := WithoutFormat(b.queued, f)), f)
  }

  /** xf_cliprdr_server_format_data_response; a response answers the oldest request. */
  function ProcessDataResponse(cfg: Config, b: Broker, fail: bool, data: seq<byte>): Broker
  {
    var b := b.(inFlight := if b.inFlight == [] then [] else b.inFlight[1..]);
    PromoteQueued(DrainPending(cfg, b, fail, data))
  }

  // ----- new format lists -----

  /** xf_cliprdr_server_format_list: parked requests are dropped without an answer and
      CF_RAW is appended to the list. */
  function ProcessServerFormatList(b: Broker, formats: seq<ServerFormat>): Broker
  {
    b.(dropped := b.dropped + b.pending + b.queued, pending := [], queued := [],
       caches := NO_CACHES, serverFormats := formats + [ServerFormat(CF_RAW, None)])
  }

  function Step(cfg: Config, b: Broker, e: Event): Broker
  {
    match e
    case Select(request, rawId) => ProcessSelectionRequest(cfg, b, request, rawId)
    case DataResponse(fail, data) => ProcessDataResponse(cfg, b, fail, data)
    case ServerFormatList(formats) => ProcessServerFormatList(b, formats)
    case ClientFormatList => b.(caches := NO_CACHES)
    case SystemSet(system) => b.(caches := b.caches.(system := system))
  }

  function Run(cfg: Config, b: Broker, es: seq<Event>): Broker
    decreases |es|
  {
    if es == [] then b else Run(cfg, Step(cfg, b, es[0]), es[1..])
  }
}
