/** The format tables of the X11 clipboard and the WinPR clipboard object it
    converts data with. Format synthesis itself is a parameter. */
module ClipboardSystem {
  import opened Bytes

  type Atom = nat
  type Window = nat
  type FormatId = uint32

  const NONE: Atom := 0

  const CF_RAW: FormatId := 0
  const CF_TEXT: FormatId := 1
  const CF_OEMTEXT: FormatId := 7
  const CF_UNICODETEXT: FormatId := 13

  const HTML_FORMAT := "HTML Format"
  const FILE_GROUP_DESCRIPTOR := "FileGroupDescriptorW"
  const MIME_HTML := "text/html"
  const MIME_URI_LIST := "text/uri-list"

  datatype ClientFormat = ClientFormat(
    atom: Atom,
    formatToRequest: FormatId,
    localFormat: FormatId,
    formatName: Option<string>,
    isImage: bool)

  datatype ServerFormat = ServerFormat(formatId: FormatId, formatName: Option<string>)

  /** What stays fixed while the client runs. `synthesize(src, data, dst)` is the
      registered converter from one format to another, if there is one, and
      `serializeFiles` turns file descriptors into the list sent to the server. */
  datatype Config = Config(
    drawable: Window,
    timestampAtom: Atom,
    targetsAtom: Atom,
    incrAtom: Atom,
    clientFormats: seq<ClientFormat>,
    registered: set<FormatId>,
    formatIds: map<string, FormatId>,
    synthesize: (FormatId, seq<byte>, FormatId) -> Option<seq<byte>>,
    serializeFiles: seq<byte> -> Option<seq<byte>>)

  /** wClipboard: the format and bytes set last. */
  datatype System = System(formatId: FormatId, data: seq<byte>)

  const EMPTY_SYSTEM := System(CF_RAW, [])

  /** ClipboardGetFormatId: unknown names have id 0. */
  function FormatIdOf(cfg: Config, name: string): FormatId
  {
    if name in cfg.formatIds then cfg.formatIds[name] else 0
  }

  predicate IsText(f: FormatId)
  {
    f == CF_TEXT || f == CF_OEMTEXT || f == CF_UNICODETEXT
  }

  /** CF_RAW is always known; every other id must have been registered. */
  predicate Registered(cfg: Config, f: FormatId)
  {
    f == CF_RAW || f in cfg.registered
  }

  /** The bytes ClipboardSetData keeps: text is cut after its terminator, which the
      two extra zero bytes of the buffer supply when the data has none. */
  function Stored(f: FormatId, data: seq<byte>): seq<byte>
  {
    if f == CF_TEXT || f == CF_OEMTEXT then (data + [0, 0])[..ZeroIndex(data) + 1]
    else if f == CF_UNICODETEXT then (data + [0, 0])[..2 * (|TakeUnits(data, 0, |data| / 2)| + 1)]
    else data
  }

  function SetData(cfg: Config, f: FormatId, data: seq<byte>): Option<System>
  {
    if Registered(cfg, f) then Some(System(f, Stored(f, data))) else None
  }

  function GetData(cfg: Config, sys: System, dst: FormatId): Option<seq<byte>>
  {
    if dst == sys.formatId then Some(sys.data) else cfg.synthesize(sys.formatId, sys.data, dst)
  }

  /** Cut at the first zero byte when the format is a terminated string. */
  function Trunc(nullTerminated: bool, data: seq<byte>): seq<byte>
  {
    if nullTerminated then data[..ZeroIndex(data)] else data
  }

  lemma ZeroIndexWhole(s: seq<byte>)
    requires forall i | 0 <= i < |s| :: s[i] != 0
    ensures ZeroIndex(s) == |s|
  {
  }

  lemma TruncTwice(nt: bool, data: seq<byte>)
    ensures Trunc(nt, Trunc(nt, data)) == Trunc(nt, data)
  {
    ZeroIndexWhole(data[..ZeroIndex(data)]);
  }

  /** xf_cliprdr_get_client_format_by_atom */
  function ClientFormatByAtom(formats: seq<ClientFormat>, atom: Atom): (r: Option<ClientFormat>)
    ensures r.Some? ==> r.value in formats && r.value.atom == atom
    ensures r.None? <==> forall f | f in formats :: f.atom != atom
  {
    if formats == [] then None
    else if formats[0].atom == atom then Some(formats[0])
    else ClientFormatByAtom(formats[1..], atom)
  }

  /** xf_cliprdr_formats_equal: a server may send a shortened name. */
  predicate FormatsEqual(server: ServerFormat, client: ClientFormat)
  {
    match (server.formatName, client.formatName)
    case (Some(s), Some(c)) => s <= c
    case (None, None) => server.formatId == client.formatToRequest
    case _ => false
  }

  function FirstEqual(servers: seq<ServerFormat>, client: ClientFormat): (r: Option<ServerFormat>)
    ensures r.Some? ==> r.value in servers && FormatsEqual(r.value, client)
  {
    if servers == [] then None
    else if FormatsEqual(servers[0], client) then Some(servers[0])
    else FirstEqual(servers[1..], client)
  }

  /** xf_cliprdr_get_server_format_by_atom */
  function ServerFormatByAtom(formats: seq<ClientFormat>, servers: seq<ServerFormat>, atom: Atom)
    : (r: Option<ServerFormat>)
    ensures r.Some? ==> r.value in servers && exists f :: f in formats && f.atom == atom
  {
    if formats == [] then None
    else if formats[0].atom == atom && FirstEqual(servers, formats[0]).Some? then
      FirstEqual(servers, formats[0])
    else ServerFormatByAtom(formats[1..], servers, atom)
  }

  lemma {:induction false} FirstEqualIff(servers: seq<ServerFormat>, client: ClientFormat)
    ensures FirstEqual(servers, client).None? <==> forall s | s in servers :: !FormatsEqual(s, client)
  {
    if servers != [] {
      FirstEqualIff(servers[1..], client);
      assert forall s :: s in servers <==> s == servers[0] || s in servers[1..];
    }
  }

  /** A server format is found exactly when the server announced one equal to some entry of
      the table for the atom, and what is found is such a one. */
  lemma {:induction false} ServerFormatIff(formats: seq<ClientFormat>, servers: seq<ServerFormat>, atom: Atom)
    ensures match ServerFormatByAtom(formats, servers, atom)
            case Some(server) =>
              server in servers && exists f :: f in formats && f.atom == atom && FormatsEqual(server, f)
            case None => forall f, s | f in formats && f.atom == atom && s in servers :: !FormatsEqual(s, f)
  {
    if formats != [] {
      FirstEqualIff(servers, formats[0]);
      ServerFormatIff(formats[1..], servers, atom);
      assert forall f :: f in formats <==> f == formats[0] || f in formats[1..];
    }
  }

  /** get_dst_format_id_for_local_request */
  function DstForRequest(cfg: Config, f: ClientFormat): FormatId
  {
    match f.formatName
    case None => f.localFormat
    case Some(name) =>
      if name == FILE_GROUP_DESCRIPTOR then f.localFormat
      else if name == HTML_FORMAT then FormatIdOf(cfg, MIME_HTML)
      else 0
  }

  /** get_src_format_info_for_local_request: the source id and whether it is a string. */
  function SrcForRequest(cfg: Config, f: ClientFormat): (FormatId, bool)
  {
    match f.formatName
    case None => (f.formatToRequest, IsText(f.formatToRequest))
    case Some(name) =>
      if name == HTML_FORMAT then (FormatIdOf(cfg, HTML_FORMAT), true)
      else if name == FILE_GROUP_DESCRIPTOR then (FormatIdOf(cfg, FILE_GROUP_DESCRIPTOR), true)
      else (0, false)
  }
}
