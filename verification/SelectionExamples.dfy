/** Runs of the selection broker in which a request does not receive the data it asked for. */
module SelectionExamples {
  import opened Bytes
  import opened ClipboardSystem
  import opened SelectionBroker
  import opened SelectionRuns
  import opened SelectionCache

  // ----- two targets, both known to the server -----

  /** Converts source data for a destination format. */
  type Converter = (FormatId, seq<byte>, FormatId) -> Option<seq<byte>>

  /** A client that knows two targets by their formats. */
  function TwoTargets(f: ClientFormat, g: ClientFormat, convert: Converter): Config
  {
    Config(1, 2, 3, 4, [f, g], {f.formatToRequest, g.formatToRequest}, map[], convert, files => None)
  }

  predicate Distinct(f: ClientFormat, g: ClientFormat)
  {
    && f.atom == 10 && g.atom == 11 && f.formatName == g.formatName == None
    && f.formatToRequest != g.formatToRequest && f.formatToRequest != CF_RAW && g.formatToRequest != CF_RAW
  }

  function Servers(f: ClientFormat, g: ClientFormat): seq<ServerFormat>
  {
    [ServerFormat(f.formatToRequest, None), ServerFormat(g.formatToRequest, None)]
  }

  function Ask(target: Atom): Event
  {
    Select(SelectionRequest(1, 7, 5, target, 6, 0), None)
  }

  /** The entry a request for a target's format is parked as. */
  function Parked(ticket: nat, f: ClientFormat): SelectionResponse
  {
    SelectionResponse(ticket, SelectionEvent(7, 5, f.atom, 6, 0),
                      RequestedFormat(f.formatToRequest, f.localFormat, None), false)
  }

  lemma Lookups(f: ClientFormat, g: ClientFormat, x: ClientFormat)
    requires Distinct(f, g) && (x == f || x == g)
    ensures ServerFormatByAtom([f, g], Servers(f, g) + [ServerFormat(CF_RAW, None)], x.atom)
         == Some(ServerFormat(x.formatToRequest, None))
    ensures ClientFormatByAtom([f, g], x.atom) == Some(x)
  {
    var servers := Servers(f, g) + [ServerFormat(CF_RAW, None)];
    assert [f, g][1..] == [g];
    assert servers[0] == ServerFormat(f.formatToRequest, None);
    assert servers[1..][0] == ServerFormat(g.formatToRequest, None);
    assert FirstEqual(servers, f) == Some(servers[0]);
    assert FirstEqual(servers[1..], g) == Some(servers[1]);
    assert FirstEqual(servers, g) == Some(servers[1]);
    assert ServerFormatByAtom([g], servers, 11) == Some(servers[1]);
    assert ClientFormatByAtom([g], 11) == Some(g);
  }

  /** With empty caches a request for either target is parked. */
  lemma AskParks(f: ClientFormat, g: ClientFormat, convert: Converter, b: Broker, x: ClientFormat)
    requires Distinct(f, g) && (x == f || x == g)
    requires b.serverFormats == Servers(f, g) + [ServerFormat(CF_RAW, None)] && b.caches == NO_CACHES
    ensures Step(TwoTargets(f, g, convert), b, Ask(x.atom))
         == Defer(b.(received := b.received + [Ask(x.atom).request]), Parked(|b.received|, x))
  {
    Lookups(f, g, x);
    assert Judge(TwoTargets(f, g, convert), b, Ask(x.atom).request, None) == (NO_CACHES, Park(Parked(|b.received|, x)));
  }

  /** A response to a single pending request. */
  lemma ServesOne(cfg: Config, b: Broker, e: SelectionResponse, data: seq<byte>)
    requires b.pending == [e]
    ensures var (d, o) := Serve(cfg, data, Start(b), e);
            DrainPending(cfg, b, false, data)
            == b.(replies := b.replies + [ReplyFor(e, o)], pending := [], caches := d.caches)
  {
    var (d, o) := Serve(cfg, data, Start(b), e);
    assert [e][1..] == [];
    assert AfterDrain(cfg, data, d, []) == d;
    assert Outcomes(cfg, data, Start(b), [e]) == [o];
    assert Replies([e], [o]) == [ReplyFor(e, o)];
  }

  lemma RunFour(cfg: Config, b: Broker, e1: Event, e2: Event, e3: Event, e4: Event)
    ensures Run(cfg, b, [e1, e2, e3, e4]) == Step(cfg, Step(cfg, Step(cfg, Step(cfg, b, e1), e2), e3), e4)
  {
    assert [e1, e2, e3, e4][1..] == [e2, e3, e4];
    assert [e2, e3, e4][1..] == [e3, e4];
    assert [e3, e4][1..] == [e4];
    assert [e4][1..] == [];
    var b3 := Step(cfg, Step(cfg, Step(cfg, b, e1), e2), e3);
    assert Run(cfg, b3, [e4]) == Step(cfg, b3, e4);
    assert Run(cfg, Step(cfg, Step(cfg, b, e1), e2), [e3, e4]) == Step(cfg, b3, e4);
  }

  // ----- the answer to an abandoned request -----

  const TEXT := ClientFormat(10, CF_UNICODETEXT, 100, None, false)
  const IMAGE := ClientFormat(11, 8, 200, None, true)

  function Plain(src: FormatId, data: seq<byte>, dst: FormatId): Option<seq<byte>>
  {
    Some(data)
  }

  /** Text is asked for, the server announces new data, an image is asked for, and the
      late answer to the first request is delivered as the image. */
  lemma StaleDelivery(text: seq<byte>)
    requires text != []
    ensures var cfg, list := TwoTargets(TEXT, IMAGE, Plain), ServerFormatList(Servers(TEXT, IMAGE));
            var b := Run(cfg, INITIAL, [list, Ask(10), list, Ask(11)]);
            && b.pending != [] && PendingFormat(b) == 8
            && b.inFlight == [DataRequest(0, CF_UNICODETEXT), DataRequest(1, 8)]
            && Step(cfg, b, DataResponse(false, text)).replies
               == [Reply(1, SelectionEvent(7, 5, 11, 6, 0), Data(text))]
  {
    var cfg, list := TwoTargets(TEXT, IMAGE, Plain), ServerFormatList(Servers(TEXT, IMAGE));
    var b1 := Step(cfg, INITIAL, list);
    AskParks(TEXT, IMAGE, Plain, b1, TEXT);
    var b3 := Step(cfg, Step(cfg, b1, Ask(10)), list);
    AskParks(TEXT, IMAGE, Plain, b3, IMAGE);
    RunFour(cfg, INITIAL, list, Ask(10), list, Ask(11));
    var b := Step(cfg, b3, Ask(11));
    ServesOne(cfg, b.(inFlight := b.inFlight[1..]), Parked(1, IMAGE), text);
  }

  // ----- the answer to another format -----

  const UTF8_STRING := ClientFormat(10, CF_UNICODETEXT, 100, None, false)
  const XA_STRING := ClientFormat(11, CF_TEXT, 100, None, false)

  /** A converter that tells the two texts apart. */
  function Marked(src: FormatId, data: seq<byte>, dst: FormatId): Option<seq<byte>>
  {
    Some([if src == CF_TEXT then 2 else 1])
  }

  function TextTargets(): Config
  {
    TwoTargets(UTF8_STRING, XA_STRING, Marked)
  }

  lemma PromotesOne(e: SelectionResponse)
    ensures WithFormat([e], e.requested.formatToRequest) == [e] && WithoutFormat([e], e.requested.formatToRequest) == []
  {
    assert [e][1..] == [];
  }

  lemma ServedFirst(d: Drain, data: seq<byte>)
    requires !d.isSet && d.caches == NO_CACHES && data != []
    ensures var (d', o) := Serve(TextTargets(), data, d, Parked(0, UTF8_STRING));
            o == Provided([1]) && d'.caches.data == map[Slot(100) := [1]]
  {
  }

  /** The first response serves the first request and fills the slot both look at. */
  lemma FirstAnswer(b: Broker, data: seq<byte>)
    requires b.pending == [Parked(0, UTF8_STRING)] && b.queued == [Parked(1, XA_STRING)] && b.caches == NO_CACHES
    requires |b.inFlight| == 1 && data != []
    ensures var b' := Step(TextTargets(), b, DataResponse(false, data));
            && b'.pending == [Parked(1, XA_STRING)] && b'.queued == [] && b'.caches.data == map[Slot(100) := [1]]
            && b'.inFlight == [DataRequest(b.sent, CF_TEXT)]
            && b'.replies == b.replies + [Reply(0, SelectionEvent(7, 5, 10, 6, 0), Data([1]))]
  {
    var b1 := b.(inFlight := b.inFlight[1..]);
    ServesOne(TextTargets(), b1, Parked(0, UTF8_STRING), data);
    ServedFirst(Start(b1), data);
    PromotesOne(Parked(1, XA_STRING));
  }

  /** The second response serves the second request from that slot. */
  lemma SecondAnswer(b: Broker, data: seq<byte>)
    requires b.pending == [Parked(1, XA_STRING)] && b.queued == [] && b.caches.data == map[Slot(100) := [1]]
    requires data != []
    ensures Step(TextTargets(), b, DataResponse(false, data)).replies
         == b.replies + [Reply(1, SelectionEvent(7, 5, 11, 6, 0), Data([1]))]
    ensures Direct(TextTargets(), RouteOf(TextTargets(), b.pending[0]), data) == Provided([2])
  {
    var b1 := b.(inFlight := if b.inFlight == [] then [] else b.inFlight[1..]);
    ServesOne(TextTargets(), b1, Parked(1, XA_STRING), data);
    assert Serve(TextTargets(), data, Start(b1), Parked(1, XA_STRING)).1 == Provided([1]);
  }

  /** Two targets with one destination, asked for one after the other: the second is answered
      with the conversion of the first response, although its own data was fetched and its
      conversion is another. */
  lemma StaleSlot(first: seq<byte>, second: seq<byte>)
    requires first != [] && second != []
    ensures var cfg, list := TextTargets(), ServerFormatList(Servers(UTF8_STRING, XA_STRING));
            var b := Run(cfg, INITIAL, [list, Ask(10), Ask(11), DataResponse(false, first)]);
            && b.pending == [Parked(1, XA_STRING)] && b.inFlight == [DataRequest(1, CF_TEXT)]
            && Step(cfg, b, DataResponse(false, second)).replies
               == [Reply(0, SelectionEvent(7, 5, 10, 6, 0), Data([1])),
                   Reply(1, SelectionEvent(7, 5, 11, 6, 0), Data([1]))]
            && Direct(cfg, RouteOf(cfg, b.pending[0]), second) == Provided([2])
  {
    var cfg, list := TextTargets(), ServerFormatList(Servers(UTF8_STRING, XA_STRING));
    var b1 := Step(cfg, INITIAL, list);
    AskParks(UTF8_STRING, XA_STRING, Marked, b1, UTF8_STRING);
    var b2 := Step(cfg, b1, Ask(10));
    AskParks(UTF8_STRING, XA_STRING, Marked, b2, XA_STRING);
    var b3 := Step(cfg, b2, Ask(11));
    FirstAnswer(b3, first);
    SecondAnswer(Step(cfg, b3, DataResponse(false, first)), second);
    RunFour(cfg, INITIAL, list, Ask(10), Ask(11), DataResponse(false, first));
  }

  // ----- equal requests that fare differently -----

  /** Two equal requests for an id nobody registered, with one for a registered name of the
      same id between them: the first is passed over, the last is not. No sound table parks
      such a request. */
  lemma UnequalFates(cfg: Config, data: seq<byte>, d: Drain, unknown: SelectionResponse, known: SelectionResponse)
    requires data != [] && !d.isSet
    requires !unknown.raw && unknown.requested.formatName == None && !Registered(cfg, unknown.requested.formatToRequest)
    requires !known.raw && known.requested.formatName == Some(HTML_FORMAT)
    requires Registered(cfg, FormatIdOf(cfg, HTML_FORMAT))
    ensures var os := Outcomes(cfg, data, d, [unknown, known, unknown]);
            os[0] == Silent && os[2] != Silent
  {
    var es := [unknown, known, unknown];
    assert !Usable(cfg, es[0]) && Usable(cfg, es[1]);
    assert FirstUsable(cfg, es) == 1;
    SilentBeforeFirstUsable(cfg, data, d, es, 0);
    SilentBeforeFirstUsable(cfg, data, d, es, 2);
  }
}
