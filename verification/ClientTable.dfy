/** The table of client formats that xf_clipboard_new builds, and why it is sound. */
module ClientTable {
  import opened Bytes
  import opened ClipboardSystem
  import opened SelectionCache

  const CF_TIFF: FormatId := 6
  const CF_DIB: FormatId := 8
  const CF_MAX: FormatId := 18

  /** The predefined atom of the name STRING. */
  const XA_STRING: Atom := 31

  const MIME_TEXT_PLAIN := "text/plain"
  const MIME_TIFF := "image/tiff"
  const MIME_GNOME_FILES := "x-special/gnome-copied-files"
  const MIME_MATE_FILES := "x-special/mate-copied-files"
  const BITMAPS := ["image/bmp", "image/x-bmp", "image/x-MS-bmp", "image/x-win-bitmap"]
  const IMAGES := ["image/webp", "image/png", "image/jpeg", MIME_TIFF]

  const CAPACITY := 20

  /** XInternAtom: one atom for each name. */
  type Intern = string -> Atom

  ghost predicate Interns(intern: Intern)
  {
    && (forall s :: intern(s) != NONE)
    && (forall s, t :: intern(s) == intern(t) ==> s == t)
    && intern("STRING") == XA_STRING
  }

  /** The clipboard object knows the standard formats and every name it gave an id. */
  ghost predicate KnownFormats(cfg: Config)
  {
    && (forall f: FormatId | f < CF_MAX :: Registered(cfg, f))
    && (forall name | name in cfg.formatIds :: Registered(cfg, cfg.formatIds[name]))
  }

  // ----- the entries -----

  function Unnamed(atom: Atom, request: FormatId, local: FormatId): ClientFormat
  {
    ClientFormat(atom, request, local, None, false)
  }

  /** Image types the clipboard object has no id for are left out. */
  function ImageEntry(cfg: Config, intern: Intern, mime: string): (r: seq<ClientFormat>)
    ensures |r| <= 1
  {
    var id := FormatIdOf(cfg, mime);
    if id == 0 then [] else [ClientFormat(intern(mime), CF_DIB, id, None, true)]
  }

  function ImageEntries(cfg: Config, intern: Intern, mimes: seq<string>): (r: seq<ClientFormat>)
    ensures |r| <= |mimes|
  {
    if mimes == [] then [] else
    ImageEntry(cfg, intern, mimes[0]) + ImageEntries(cfg, intern, mimes[1..])
  }

  function FileEntry(cfg: Config, intern: Intern, mime: string): ClientFormat
  {
    ClientFormat(intern(mime), FormatIdOf(cfg, FILE_GROUP_DESCRIPTOR), FormatIdOf(cfg, mime),
                 Some(FILE_GROUP_DESCRIPTOR), false)
  }

  function IfKnown(cfg: Config, intern: Intern, mime: string): seq<ClientFormat>
  {
    if FormatIdOf(cfg, mime) == 0 then [] else [FileEntry(cfg, intern, mime)]
  }

  /** An entry that was counted and never filled. */
  const BLANK := Unnamed(NONE, 0, 0)

  function Fixed(cfg: Config, intern: Intern): seq<ClientFormat>
  {
    [Unnamed(intern("_FREERDP_RAW"), CF_RAW, CF_RAW),
     Unnamed(intern("UTF8_STRING"), CF_UNICODETEXT, FormatIdOf(cfg, MIME_TEXT_PLAIN)),
     Unnamed(XA_STRING, CF_TEXT, FormatIdOf(cfg, MIME_TEXT_PLAIN)),
     Unnamed(intern(MIME_TIFF), CF_TIFF, CF_TIFF)]
  }

  function Html(cfg: Config, intern: Intern): ClientFormat
  {
    ClientFormat(intern(MIME_HTML), FormatIdOf(cfg, HTML_FORMAT), FormatIdOf(cfg, MIME_HTML), Some(HTML_FORMAT), false)
  }

  function Files(cfg: Config, intern: Intern): seq<ClientFormat>
  {
    IfKnown(cfg, intern, MIME_URI_LIST) + IfKnown(cfg, intern, MIME_GNOME_FILES)
    + if FormatIdOf(cfg, MIME_MATE_FILES) == 0 then [BLANK] else [FileEntry(cfg, intern, MIME_MATE_FILES)]
  }

  function Table(cfg: Config, intern: Intern): seq<ClientFormat>
  {
    Fixed(cfg, intern) + ImageEntries(cfg, intern, BITMAPS) + ImageEntries(cfg, intern, IMAGES)
    + [Html(cfg, intern)] + Files(cfg, intern)
  }

  // ----- building it -----

  lemma ImagesNext(cfg: Config, intern: Intern, mimes: seq<string>, x: nat, done: seq<ClientFormat>)
    requires x < |mimes|
    ensures done + ImageEntries(cfg, intern, mimes[x..])
         == done + ImageEntry(cfg, intern, mimes[x]) + ImageEntries(cfg, intern, mimes[x + 1..])
  {
    assert mimes[x..][1..] == mimes[x + 1..];
  }

  method AddImages(cfg: Config, intern: Intern, table: array<ClientFormat>, n: nat, mimes: seq<string>)
    returns (n': nat)
    requires n + |mimes| <= table.Length
    modifies table
    ensures n' == n + |ImageEntries(cfg, intern, mimes)|
    ensures table[..n'] == old(table[..n]) + ImageEntries(cfg, intern, mimes)
  {
    n' := n;
    ghost var done := [];
    for x := 0 to |mimes|
      invariant n <= n' <= n + x && n' == n + |done|
      invariant table[..n'] == old(table[..n]) + done
      invariant ImageEntries(cfg, intern, mimes) == done + ImageEntries(cfg, intern, mimes[x..])
    {
      ImagesNext(cfg, intern, mimes, x, done);
      ghost var before := table[..n'];
      var format := FormatIdOf(cfg, mimes[x]);
      if format != 0 {
        var entry := ClientFormat(intern(mimes[x]), CF_DIB, format, None, true);
        table[n'] := entry;
        n' := n' + 1;
        assert table[..n'] == before + [entry];
      }
      done := done + ImageEntry(cfg, intern, mimes[x]);
    }
    assert mimes[|mimes|..] == [];
  }

  /** A known file type takes the entry set aside before it and sets another aside. */
  method AddFile(cfg: Config, intern: Intern, table: array<ClientFormat>, n: nat, mime: string) returns (n': nat)
    requires 0 < n < table.Length && table[n - 1] == BLANK
    modifies table
    ensures n <= n' <= n + 1 && table[..n'] == old(table[..n - 1]) + IfKnown(cfg, intern, mime) + [BLANK]
  {
    n' := n;
    if FormatIdOf(cfg, mime) != 0 {
      table[n - 1] := FileEntry(cfg, intern, mime);
      table[n] := BLANK;
      n' := n + 1;
    }
  }

  /** The last file type leaves the entry set aside blank when there is nothing to fill in. */
  method AddFiles(cfg: Config, intern: Intern, table: array<ClientFormat>, n: nat) returns (n': nat)
    requires n + 3 <= table.Length
    modifies table
    ensures n' <= table.Length && table[..n'] == old(table[..n]) + Files(cfg, intern)
  {
    ghost var was := table[..n];
    table[n] := BLANK;
    n' := AddFile(cfg, intern, table, n + 1, MIME_URI_LIST);
    ghost var one := was + IfKnown(cfg, intern, MIME_URI_LIST);
    assert table[..n' - 1] == one && table[n' - 1] == table[..n'][n' - 1];
    n' := AddFile(cfg, intern, table, n', MIME_GNOME_FILES);
    ghost var two := one + IfKnown(cfg, intern, MIME_GNOME_FILES);
    assert table[..n' - 1] == two && table[n' - 1] == table[..n'][n' - 1];
    if FormatIdOf(cfg, MIME_MATE_FILES) != 0 {
      table[n' - 1] := FileEntry(cfg, intern, MIME_MATE_FILES);
    }
    assert table[..n'] == two + [table[n' - 1]];
    Associate(was, IfKnown(cfg, intern, MIME_URI_LIST), IfKnown(cfg, intern, MIME_GNOME_FILES));
    Associate(was, IfKnown(cfg, intern, MIME_URI_LIST) + IfKnown(cfg, intern, MIME_GNOME_FILES), [table[n' - 1]]);
  }

  /** The part of xf_clipboard_new that fills the table; it never runs past its end. */
  method Build(cfg: Config, intern: Intern) returns (table: array<ClientFormat>, n: nat)
    ensures fresh(table) && n <= table.Length == CAPACITY && table[..n] == Table(cfg, intern)
  {
    table := new ClientFormat[CAPACITY](_ => BLANK);
    table[0] := Unnamed(intern("_FREERDP_RAW"), CF_RAW, CF_RAW);
    table[1] := Unnamed(intern("UTF8_STRING"), CF_UNICODETEXT, FormatIdOf(cfg, MIME_TEXT_PLAIN));
    table[2] := Unnamed(XA_STRING, CF_TEXT, FormatIdOf(cfg, MIME_TEXT_PLAIN));
    table[3] := Unnamed(intern(MIME_TIFF), CF_TIFF, CF_TIFF);
    assert table[..4] == Fixed(cfg, intern);
    n := AddImages(cfg, intern, table, 4, BITMAPS);
    n := AddImages(cfg, intern, table, n, IMAGES);
    ghost var head := table[..n];
    table[n] := Html(cfg, intern);
    assert table[..n + 1] == head + [Html(cfg, intern)];
    n := AddFiles(cfg, intern, table, n + 1);
  }

  // ----- one atom, one name -----

  /** The name every entry of an atom has. */
  ghost function NameFor(intern: Intern, atom: Atom): Option<string>
  {
    if atom == intern(MIME_HTML) then Some(HTML_FORMAT)
    else if atom == intern(MIME_URI_LIST) || atom == intern(MIME_GNOME_FILES) || atom == intern(MIME_MATE_FILES) then
      Some(FILE_GROUP_DESCRIPTOR)
    else None
  }

  ghost predicate Fitting(cfg: Config, intern: Intern, f: ClientFormat)
  {
    f.formatName == NameFor(intern, f.atom) && (f.formatName.None? ==> f.formatToRequest < CF_MAX)
  }

  ghost predicate AllFitting(cfg: Config, intern: Intern, fs: seq<ClientFormat>)
  {
    forall f | f in fs :: Fitting(cfg, intern, f)
  }

  /** A name that is not one of the four special ones. */
  predicate Ordinary(name: string)
  {
    name != MIME_HTML && name != MIME_URI_LIST && name != MIME_GNOME_FILES && name != MIME_MATE_FILES
  }

  lemma OrdinaryAtom(intern: Intern, name: string)
    requires Interns(intern) && Ordinary(name)
    ensures NameFor(intern, intern(name)) == None
  {
  }

  lemma {:induction false} ImagesFitting(cfg: Config, intern: Intern, mimes: seq<string>)
    requires Interns(intern) && forall m | m in mimes :: Ordinary(m)
    ensures AllFitting(cfg, intern, ImageEntries(cfg, intern, mimes))
  {
    if mimes != [] {
      assert mimes[0] in mimes;
      OrdinaryAtom(intern, mimes[0]);
      ImagesFitting(cfg, intern, mimes[1..]);
    }
  }

  lemma ImageNames()
    ensures forall m | m in BITMAPS :: Ordinary(m)
    ensures forall m | m in IMAGES :: Ordinary(m)
  {
    forall m | m in BITMAPS || m in IMAGES
      ensures Ordinary(m)
    {
      assert m[0] == 'i';
    }
  }

  lemma FixedFitting(cfg: Config, intern: Intern)
    requires Interns(intern)
    ensures AllFitting(cfg, intern, Fixed(cfg, intern))
  {
    assert "_FREERDP_RAW"[0] == '_' && "UTF8_STRING"[0] == 'U' && "STRING"[0] == 'S' && MIME_TIFF[0] == 'i';
    OrdinaryAtom(intern, "_FREERDP_RAW");
    OrdinaryAtom(intern, "UTF8_STRING");
    OrdinaryAtom(intern, "STRING");
    OrdinaryAtom(intern, MIME_TIFF);
  }

  lemma FilesFitting(cfg: Config, intern: Intern)
    requires Interns(intern)
    ensures AllFitting(cfg, intern, [Html(cfg, intern)] + Files(cfg, intern))
  {
    assert |MIME_URI_LIST| != |MIME_HTML| && |MIME_GNOME_FILES| != |MIME_HTML| && |MIME_MATE_FILES| != |MIME_HTML|;
  }

  lemma TableFitting(cfg: Config, intern: Intern)
    requires Interns(intern)
    ensures AllFitting(cfg, intern, Table(cfg, intern))
  {
    FixedFitting(cfg, intern);
    ImageNames();
    ImagesFitting(cfg, intern, BITMAPS);
    ImagesFitting(cfg, intern, IMAGES);
    FilesFitting(cfg, intern);
  }

  /** The client's own table is sound, whichever formats the clipboard object has. */
  lemma OwnTableSound(cfg: Config, intern: Intern)
    requires Interns(intern) && KnownFormats(cfg) && cfg.clientFormats == Table(cfg, intern)
    ensures TableSound(cfg)
  {
    TableFitting(cfg, intern);
    forall f | f in cfg.clientFormats && f.formatName.None?
      ensures Registered(cfg, f.formatToRequest)
    {
      assert Fitting(cfg, intern, f);
    }
    forall f, g | f in cfg.clientFormats && g in cfg.clientFormats && f.atom == g.atom
      ensures f.formatName == g.formatName
    {
      assert Fitting(cfg, intern, f) && Fitting(cfg, intern, g);
    }
  }

  /** Two of its entries ask the server for different formats and convert to the same one. */
  lemma TextSharesSlot(cfg: Config, intern: Intern)
    ensures var t := Table(cfg, intern);
            && t[1].formatToRequest != t[2].formatToRequest
            && t[1].formatName == t[2].formatName == None
            && DstForRequest(cfg, t[1]) == DstForRequest(cfg, t[2])
  {
    assert Table(cfg, intern)[..4] == Fixed(cfg, intern);
  }
}
