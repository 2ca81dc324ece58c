/** The server pasting from local applications: one outstanding format request, and
    the INCR transfer of section 2.7.2 of the ICCCM that reassembles large data. This
    module gives the value of the provider after each event and what runs of them keep. */
module DataProvider {
  import opened Bytes
  import opened ClipboardSystem

  const NO_REQUEST: FormatId := 0xFFFF_FFFF

  datatype Response = Fail | Ok(data: seq<byte>)

  /** `incrData` is the reassembly buffer, absent until it is first needed; only its
      first `incrLength` bytes count. */
  datatype Provider = Provider(
    requestedFormatId: FormatId,
    incrStarts: bool,
    incrData: Option<seq<byte>>,
    incrLength: nat,
    available: seq<Atom>,
    isImageContent: bool,
    system: System,
    responses: seq<Response>)

  const IDLE := Provider(NO_REQUEST, false, None, 0, [], false, EMPTY_SYSTEM, [])

  /** The two XGetWindowProperty calls of xf_cliprdr_get_requested_data: type and size
      first, then the content. */
  datatype PropertyRead = PropertyRead(ok: bool, propertyType: Atom, totalBytes: nat, content: Option<seq<byte>>)

  datatype Event =
    | DataRequest(formatId: FormatId, rawAvailable: bool)
    | SelectionNotify(target: Atom, read: PropertyRead)
    | PropertyNotify(read: PropertyRead)
    | ClientFormatList(atoms: seq<Atom>, isImage: bool)
    | ServerFormatList

  // ----- the handlers -----

  /** xf_cliprdr_get_client_available_format_by_id */
  function AvailableFormat(cfg: Config, formats: seq<ClientFormat>, atoms: seq<Atom>, image: bool, id: FormatId)
    : Option<ClientFormat>
  {
    if formats == [] then None
    else if formats[0].atom in atoms
            && ((image && id == FormatIdOf(cfg, HTML_FORMAT) && formats[0].isImage) || formats[0].formatToRequest == id)
    then Some(formats[0])
    else AvailableFormat(cfg, formats[1..], atoms, image, id)
  }

  function Available(cfg: Config, p: Provider, id: FormatId): Option<ClientFormat>
  {
    AvailableFormat(cfg, cfg.clientFormats, p.available, p.isImageContent, id)
  }

  /** xf_cliprdr_send_data_response */
  function SendDataResponse(p: Provider, r: Response): Provider
  {
    if p.requestedFormatId == NO_REQUEST then p
    else p.(requestedFormatId := NO_REQUEST, responses := p.responses + [r])
  }

  /** xf_cliprdr_stop_incr */
  function StopIncr(p: Provider): Provider
  {
    p.(incrStarts := false, incrLength := 0)
  }

  /** The buffer after `append`: what counted, the new bytes and two terminators. */
  function Append(p: Provider, bytes: seq<byte>): Provider
    requires p.incrData.Some? ==> p.incrLength <= |p.incrData.value|
    requires p.incrData.None? ==> p.incrLength == 0
  {
    var kept := if p.incrData.None? then [] else p.incrData.value[..p.incrLength];
    p.(incrData := Some(kept + bytes + [0, 0]), incrLength := p.incrLength + |bytes|)
  }

  /** The size is passed on as a 32-bit number. */
  function Sized(data: seq<byte>): (r: seq<byte>)
    ensures |data| < 0x1_0000_0000 ==> r == data
  {
    data[..|data| % 0x1_0000_0000]
  }

  /** Conversion of local data for the server: what the WinPR clipboard then holds and
      what is answered. */
  function Convert(cfg: Config, sys: System, f: ClientFormat, id: FormatId, data: seq<byte>): (System, Response)
  {
    var src := if f.formatToRequest == CF_RAW then CF_RAW else f.localFormat;
    match SetData(cfg, src, Sized(data))
    case None => (sys, Fail)
    case Some(sys') =>
      match GetData(cfg, sys', id)
      case None => (sys', Fail)
      case Some(dst) =>
        if f.formatToRequest != 0 && f.formatToRequest == FormatIdOf(cfg, FILE_GROUP_DESCRIPTOR) then
          match cfg.serializeFiles(dst)
          case None => (sys', Fail)
          case Some(list) => (sys', Ok(list))
        else (sys', Ok(dst))
  }

  /** xf_cliprdr_process_requested_data, called with the first `size` buffer bytes. */
  function ProcessRequestedData(cfg: Config, p: Provider, hasData: bool, size: nat): Provider
    requires p.incrData.Some? ==> size <= |p.incrData.value|
  {
    if p.incrStarts && hasData then p else
    var p := p.(incrLength := 0);
    var f := Available(cfg, p, p.requestedFormatId);
    if !hasData || p.incrData.None? || f.None? then SendDataResponse(p, Fail) else
    var (sys, r) := Convert(cfg, p.system, f.value, p.requestedFormatId, p.incrData.value[..size]);
    SendDataResponse(p.(system := sys), r)
  }

  /** Not in a transfer means nothing is buffered; the buffer has room for terminators. */
  ghost predicate Valid(p: Provider)
  {
    && (!p.incrStarts ==> p.incrLength == 0)
    && (p.incrData.Some? ==> p.incrLength + 2 <= |p.incrData.value|)
    && (p.incrData.None? ==> p.incrLength == 0)
  }

  /** What a property read adds to the transfer, and what of the buffer is then processed:
      whether there is data, and how much. */
  function Collect(cfg: Config, p: Provider, read: PropertyRead): (r: (Provider, bool, nat))
    requires Valid(p)
    ensures r.0.incrData.Some? ==> r.2 + 2 <= |r.0.incrData.value|
  {
    if read.totalBytes == 0 && !p.incrStarts then (StopIncr(p), false, 0)
    else if read.propertyType == cfg.incrAtom then (StopIncr(p).(incrStarts := true), true, 0)
    else if read.totalBytes == 0 then (StopIncr(p), true, p.incrLength)
    else if read.content.Some? then
      var grown := Append(p, read.content.value);
      (grown, true, grown.incrLength)
    else (p, false, p.incrLength)
  }

  /** xf_cliprdr_get_requested_data */
  function GetRequestedData(cfg: Config, p: Provider, target: Atom, read: PropertyRead): (p': Provider)
    requires Valid(p)
    ensures Valid(p')
  {
    var f := Available(cfg, p, p.requestedFormatId);
    if f.None? || f.value.atom != target || !read.ok then SendDataResponse(p, Fail) else
    var (collected, hasData, size) := Collect(cfg, p, read);
    ProcessRequestedData(cfg, collected, hasData, size)
  }

  /** xf_cliprdr_server_format_data_request */
  function ServerDataRequest(cfg: Config, p: Provider, formatId: FormatId, rawAvailable: bool): Provider
  {
    var id := if rawAvailable then CF_RAW else formatId;
    var p := p.(requestedFormatId := id);
    if Available(cfg, p, id).None? then SendDataResponse(p, Fail) else p
  }

  /** xf_cliprdr_clear_cached_data */
  function ClearCachedData(p: Provider): Provider
  {
    StopIncr(p).(available := [], system := EMPTY_SYSTEM)
  }

  function Step(cfg: Config, p: Provider, e: Event): (p': Provider)
    requires Valid(p)
    ensures Valid(p')
  {
    match e
    case DataRequest(id, raw) => ServerDataRequest(cfg, p, id, raw)
    case SelectionNotify(target, read) => GetRequestedData(cfg, p, target, read)
    case PropertyNotify(read) =>
      var f := Available(cfg, p, p.requestedFormatId);
      if p.incrStarts && f.Some? then GetRequestedData(cfg, p, f.value.atom, read) else p
    case ClientFormatList(atoms, isImage) =>
      ClearCachedData(SendDataResponse(p, Fail)).(available := atoms, isImageContent := isImage)
    case ServerFormatList => ClearCachedData(p)
  }

  function Run(cfg: Config, p: Provider, es: seq<Event>): (p': Provider)
    requires Valid(p)
    ensures Valid(p')
    decreases |es|
  {
    if es == [] then p else Run(cfg, Step(cfg, p, es[0]), es[1..])
  }

  lemma {:induction false} RunConcat(cfg: Config, p: Provider, es: seq<Event>, fs: seq<Event>)
    requires Valid(p)
    ensures Run(cfg, p, es + fs) == Run(cfg, Run(cfg, p, es), fs)
    decreases |es|
  {
    if es == [] {
      assert es + fs == fs;
    } else {
      assert (es + fs)[1..] == es[1..] + fs;
      RunConcat(cfg, Step(cfg, p, es[0]), es[1..], fs);
    }
  }

  // ----- one response per request -----

  function Waiting(p: Provider): int
  {
    if p.requestedFormatId == NO_REQUEST then 0 else 1
  }

  function Arrived(e: Event): int
  {
    if e.DataRequest? then 1 else 0
  }

  /** A request for the id that stands for no request; a raw transfer replaces the id. */
  predicate Void(e: Event)
  {
    e.DataRequest? && !e.rawAvailable && e.formatId == NO_REQUEST
  }

  /** Requests that will never be answered: the one a new request overwrites, and one
      for the id that stands for no request. */
  function Lost(p: Provider, e: Event): int
  {
    (if e.DataRequest? && p.requestedFormatId != NO_REQUEST then 1 else 0)
    + (if Void(e) then 1 else 0)
  }

  function ArrivedIn(es: seq<Event>): int
  {
    if es == [] then 0 else Arrived(es[0]) + ArrivedIn(es[1..])
  }

  function LostIn(cfg: Config, p: Provider, es: seq<Event>): int
    requires Valid(p)
    decreases |es|
  {
    if es == [] then 0 else Lost(p, es[0]) + LostIn(cfg, Step(cfg, p, es[0]), es[1..])
  }

  /** Responses sent and still due. */
  function Balance(p: Provider): int
  {
    |p.responses| + Waiting(p)
  }

  lemma ProcessBalance(cfg: Config, p: Provider, hasData: bool, size: nat)
    requires p.incrData.Some? ==> size <= |p.incrData.value|
    ensures Balance(ProcessRequestedData(cfg, p, hasData, size)) == Balance(p)
  {
  }

  lemma GetBalance(cfg: Config, p: Provider, target: Atom, read: PropertyRead)
    requires Valid(p)
    ensures Balance(GetRequestedData(cfg, p, target, read)) == Balance(p)
  {
    var (collected, hasData, size) := Collect(cfg, p, read);
    ProcessBalance(cfg, collected, hasData, size);
  }

  lemma StepResponses(cfg: Config, p: Provider, e: Event)
    requires Valid(p)
    ensures Balance(Step(cfg, p, e)) == Balance(p) + Arrived(e) - Lost(p, e)
  {
    match e
    case SelectionNotify(target, read) => GetBalance(cfg, p, target, read);
    case PropertyNotify(read) =>
      var f := Available(cfg, p, p.requestedFormatId);
      if p.incrStarts && f.Some? {
        GetBalance(cfg, p, f.value.atom, read);
      }
    case _ =>
  }

  lemma {:induction false} RunResponses(cfg: Config, p: Provider, es: seq<Event>)
    requires Valid(p)
    ensures Balance(Run(cfg, p, es)) == Balance(p) + ArrivedIn(es) - LostIn(cfg, p, es)
    ensures LostIn(cfg, p, es) >= 0
    decreases |es|
  {
    if es != [] {
      StepResponses(cfg, p, es[0]);
      RunResponses(cfg, Step(cfg, p, es[0]), es[1..]);
    }
  }

  /** As the server sees it, having sent `sent` requests and received the responses so far:
      it asks only when every request was answered, and never for the void id. */
  ghost predicate Polite(cfg: Config, p: Provider, es: seq<Event>, sent: int)
    requires Valid(p)
    decreases |es|
  {
    es == [] || (&& (es[0].DataRequest? ==> sent - |p.responses| == 0 && !Void(es[0]))
                 && Polite(cfg, Step(cfg, p, es[0]), es[1..], sent + Arrived(es[0])))
  }

  /** A server whose requests are all answered but the outstanding one loses none from then
      on if and only if it is polite. */
  lemma {:induction false} PoliteLosesNothing(cfg: Config, p: Provider, es: seq<Event>, sent: int)
    requires Valid(p) && sent - |p.responses| == Waiting(p)
    ensures Polite(cfg, p, es, sent) <==> LostIn(cfg, p, es) == 0
    decreases |es|
  {
    if es != [] {
      StepResponses(cfg, p, es[0]);
      RunResponses(cfg, Step(cfg, p, es[0]), es[1..]);
      if Lost(p, es[0]) == 0 {
        PoliteLosesNothing(cfg, Step(cfg, p, es[0]), es[1..], sent + Arrived(es[0]));
      }
    }
  }

  /** No run answers more than it was asked. What is unanswered is exactly the outstanding
      request if and only if no request was overwritten or void, which is to say if and only
      if the server waits for each answer and never asks for the void id. */
  lemma OneResponsePerRequest(cfg: Config, es: seq<Event>)
    ensures var p := Run(cfg, IDLE, es);
            && |p.responses| <= ArrivedIn(es)
            && (ArrivedIn(es) - |p.responses| == Waiting(p) <==> LostIn(cfg, IDLE, es) == 0)
            && (ArrivedIn(es) - |p.responses| == Waiting(p) <==> Polite(cfg, IDLE, es, 0))
  {
    RunResponses(cfg, IDLE, es);
    PoliteLosesNothing(cfg, IDLE, es, 0);
  }

  // ----- requests that are never answered -----

  lemma RunOne(cfg: Config, p: Provider, e: Event)
    requires Valid(p)
    ensures Run(cfg, p, [e]) == Step(cfg, p, e)
  {
    assert [e][1..] == [];
    assert Run(cfg, Step(cfg, p, e), []) == Step(cfg, p, e);
  }

  /** A client with one format, which it announces and is then asked for twice. */
  lemma OverwrittenRequest(cfg: Config, read: PropertyRead)
    requires cfg.clientFormats == [ClientFormat(10, CF_UNICODETEXT, CF_UNICODETEXT, None, false)] && !read.ok
    ensures var ask := DataRequest(CF_UNICODETEXT, false);
            var es := [ClientFormatList([10], false), ask, ask, SelectionNotify(10, read)];
            var p := Run(cfg, IDLE, es);
            ArrivedIn(es) == 2 && p.responses == [Fail] && p.requestedFormatId == NO_REQUEST
  {
    var ask := DataRequest(CF_UNICODETEXT, false);
    var list, answer := ClientFormatList([10], false), SelectionNotify(10, read);
    var es := [list, ask, ask, answer];
    var p1 := Step(cfg, IDLE, list);
    assert 10 in p1.available;
    var p2 := Step(cfg, p1, ask);
    assert Available(cfg, p2, CF_UNICODETEXT).Some?;
    assert Step(cfg, p2, ask) == p2;
    assert es[1..] == [ask, ask, answer] && [ask, ask, answer][1..] == [ask, answer] && [ask, answer][1..] == [answer];
    assert [answer][1..] == [];
    RunOne(cfg, p2, answer);
    assert Run(cfg, p2, [ask, answer]) == Run(cfg, p2, [answer]);
    assert ArrivedIn([answer]) == 0 && ArrivedIn([ask, answer]) == 1 && ArrivedIn([ask, ask, answer]) == 2;
  }

  /** A request for the void id leaves an idle provider as it was. */
  lemma VoidRequest(cfg: Config, e: Event)
    requires Void(e)
    ensures Step(cfg, IDLE, e) == IDLE
  {
  }

  // ----- INCR reassembly -----

  /** The announcement of a transfer: its size estimate is not empty. */
  predicate IsAnnouncement(cfg: Config, read: PropertyRead)
  {
    read.ok && read.propertyType == cfg.incrAtom && read.totalBytes > 0
  }

  predicate IsChunk(cfg: Config, read: PropertyRead, bytes: seq<byte>)
  {
    && read.ok && read.propertyType != cfg.incrAtom && bytes != []
    && read.totalBytes == |bytes| && read.content == Some(bytes)
  }

  predicate IsEnd(cfg: Config, read: PropertyRead)
  {
    read.ok && read.propertyType != cfg.incrAtom && read.totalBytes == 0
  }

  /** A request waits and `target` is the local form that can answer it. */
  ghost predicate Awaits(cfg: Config, p: Provider, f: ClientFormat)
  {
    && p.requestedFormatId != NO_REQUEST
    && Available(cfg, p, p.requestedFormatId) == Some(f)
  }

  /** In a transfer that has collected `bytes`. */
  ghost predicate Collected(p: Provider, bytes: seq<byte>)
  {
    && p.incrStarts && p.incrLength == |bytes|
    && if bytes == [] then p.incrData.Some? ==> 2 <= |p.incrData.value|
       else p.incrData == Some(bytes + [0, 0])
  }

  /** `p` and `p'` differ in the transfer only. */
  predicate SameRequest(p: Provider, p': Provider)
  {
    p' == p.(incrStarts := p'.incrStarts, incrData := p'.incrData, incrLength := p'.incrLength)
  }

  lemma ChunkCollects(cfg: Config, p: Provider, f: ClientFormat, read: PropertyRead, bytes: seq<byte>, chunk: seq<byte>)
    requires Valid(p) && Awaits(cfg, p, f) && Collected(p, bytes) && IsChunk(cfg, read, chunk)
    ensures var p' := Step(cfg, p, PropertyNotify(read));
            Collected(p', bytes + chunk) && SameRequest(p, p')
  {
  }

  function Chunks(parts: seq<PropertyRead>): seq<Event>
  {
    seq(|parts|, i requires 0 <= i < |parts| => PropertyNotify(parts[i]))
  }

  lemma {:induction false} ChunksCollect(cfg: Config, p: Provider, f: ClientFormat, parts: seq<PropertyRead>,
                                         bytes: seq<byte>, chunks: seq<seq<byte>>)
    requires Valid(p) && Awaits(cfg, p, f) && Collected(p, bytes)
    requires |parts| == |chunks| && forall i | 0 <= i < |parts| :: IsChunk(cfg, parts[i], chunks[i])
    ensures var p' := Run(cfg, p, Chunks(parts));
            Collected(p', bytes + Concat(chunks)) && SameRequest(p, p')
            && (chunks == [] ==> p' == p)
    decreases |parts|
  {
    if parts == [] {
      assert bytes + Concat(chunks) == bytes;
    } else {
      var p' := Step(cfg, p, PropertyNotify(parts[0]));
      ChunkCollects(cfg, p, f, parts[0], bytes, chunks[0]);
      ChunksCollect(cfg, p', f, parts[1..], bytes + chunks[0], chunks[1..]);
      assert Chunks(parts)[1..] == Chunks(parts[1..]);
      assert bytes + Concat(chunks) == bytes + chunks[0] + Concat(chunks[1..]);
    }
  }

  /** Announcement, chunks, end. */
  function Transfer(announcement: PropertyRead, parts: seq<PropertyRead>, end: PropertyRead, target: Atom): seq<Event>
  {
    [SelectionNotify(target, announcement)] + Chunks(parts) + [PropertyNotify(end)]
  }

  /** The request answered with the conversion of `bytes`, which stay in the buffer. */
  function Answered(cfg: Config, p: Provider, f: ClientFormat, bytes: seq<byte>): Provider
  {
    var (sys, r) := Convert(cfg, p.system, f, p.requestedFormatId, bytes);
    p.(requestedFormatId := NO_REQUEST, incrStarts := false, incrLength := 0,
       incrData := Some(bytes + [0, 0]), system := sys, responses := p.responses + [r])
  }

  lemma ProcessAnswers(cfg: Config, p: Provider, f: ClientFormat, bytes: seq<byte>)
    requires Awaits(cfg, p, f) && !p.incrStarts && p.incrData == Some(bytes + [0, 0])
    ensures ProcessRequestedData(cfg, p, true, |bytes|) == Answered(cfg, p, f, bytes)
  {
    assert (bytes + [0, 0])[..|bytes|] == bytes;
  }

  lemma AnnouncementStarts(cfg: Config, p: Provider, f: ClientFormat, read: PropertyRead)
    requires Valid(p) && Awaits(cfg, p, f) && IsAnnouncement(cfg, read)
    ensures Step(cfg, p, SelectionNotify(f.atom, read)) == StopIncr(p).(incrStarts := true)
  {
  }

  lemma EndDelivers(cfg: Config, p: Provider, f: ClientFormat, read: PropertyRead, bytes: seq<byte>)
    requires Valid(p) && Awaits(cfg, p, f) && Collected(p, bytes) && bytes != [] && IsEnd(cfg, read)
    ensures Step(cfg, p, PropertyNotify(read)) == Answered(cfg, p, f, bytes)
  {
    ProcessAnswers(cfg, StopIncr(p), f, bytes);
  }

  lemma WholeDelivers(cfg: Config, p: Provider, f: ClientFormat, read: PropertyRead, bytes: seq<byte>)
    requires Valid(p) && Awaits(cfg, p, f) && !p.incrStarts && IsChunk(cfg, read, bytes)
    ensures Step(cfg, p, SelectionNotify(f.atom, read)) == Answered(cfg, p, f, bytes)
  {
    assert [] + bytes + [0, 0] == bytes + [0, 0];
    ProcessAnswers(cfg, Append(p, bytes), f, bytes);
  }

  lemma ConcatNonEmpty(chunks: seq<seq<byte>>)
    requires chunks != [] && chunks[0] != []
    ensures Concat(chunks) != []
  {
  }

  /** A transfer with at least one chunk produces exactly one response, converted from
      the chunks joined in order, and leaves no trace of itself. */
  lemma IncrDelivers(cfg: Config, p: Provider, f: ClientFormat, announcement: PropertyRead,
                     parts: seq<PropertyRead>, chunks: seq<seq<byte>>, end: PropertyRead)
    requires Valid(p) && Awaits(cfg, p, f)
    requires IsAnnouncement(cfg, announcement) && IsEnd(cfg, end)
    requires |parts| == |chunks| > 0 && forall i | 0 <= i < |parts| :: IsChunk(cfg, parts[i], chunks[i])
    ensures var p' := Run(cfg, p, Transfer(announcement, parts, end, f.atom));
            var (sys, r) := Convert(cfg, p.system, f, p.requestedFormatId, Concat(chunks));
            p' == p.(requestedFormatId := NO_REQUEST, incrStarts := false, incrLength := 0,
                     incrData := Some(Concat(chunks) + [0, 0]), system := sys, responses := p.responses + [r])
  {
    var first, last := SelectionNotify(f.atom, announcement), PropertyNotify(end);
    var p1 := Step(cfg, p, first);
    AnnouncementStarts(cfg, p, f, announcement);
    ChunksCollect(cfg, p1, f, parts, [], chunks);
    var p2 := Run(cfg, p1, Chunks(parts));
    assert [] + Concat(chunks) == Concat(chunks);
    ConcatNonEmpty(chunks);
    EndDelivers(cfg, p2, f, end, Concat(chunks));
    RunOne(cfg, p, first);
    RunOne(cfg, p2, last);
    RunConcat(cfg, p, [first], Chunks(parts));
    RunConcat(cfg, p, [first] + Chunks(parts), [last]);
  }

  /** Splitting data over a transfer makes no difference to what the server receives. */
  lemma IncrMatchesOneShot(cfg: Config, p: Provider, f: ClientFormat, announcement: PropertyRead,
                           parts: seq<PropertyRead>, chunks: seq<seq<byte>>, end: PropertyRead, whole: PropertyRead)
    requires Valid(p) && Awaits(cfg, p, f) && !p.incrStarts
    requires IsAnnouncement(cfg, announcement) && IsEnd(cfg, end)
    requires |parts| == |chunks| > 0 && forall i | 0 <= i < |parts| :: IsChunk(cfg, parts[i], chunks[i])
    requires IsChunk(cfg, whole, Concat(chunks))
    ensures Run(cfg, p, Transfer(announcement, parts, end, f.atom)) == Run(cfg, p, [SelectionNotify(f.atom, whole)])
  {
    IncrDelivers(cfg, p, f, announcement, parts, chunks, end);
    RunOne(cfg, p, SelectionNotify(f.atom, whole));
    WholeDelivers(cfg, p, f, whole, Concat(chunks));
  }

  /** A transfer without chunks is answered from the stale buffer cut to nothing, or
      refused if there never was one, whereas an empty property is always refused. */
  lemma EmptyTransfer(cfg: Config, p: Provider, f: ClientFormat, announcement: PropertyRead, end: PropertyRead)
    requires Valid(p) && Awaits(cfg, p, f)
    requires IsAnnouncement(cfg, announcement) && IsEnd(cfg, end)
    ensures var p' := Run(cfg, p, Transfer(announcement, [], end, f.atom));
            p'.responses == p.responses
              + [if p.incrData.None? then Fail else Convert(cfg, p.system, f, p.requestedFormatId, []).1]
    ensures !p.incrStarts ==> Step(cfg, p, SelectionNotify(f.atom, end)).responses == p.responses + [Fail]
  {
    var first, last := SelectionNotify(f.atom, announcement), PropertyNotify(end);
    assert Transfer(announcement, [], end, f.atom) == [first] + [last];
    RunConcat(cfg, p, [first], [last]);
    RunOne(cfg, p, first);
    RunOne(cfg, Step(cfg, p, first), last);
  }
}
