/** The server's format list as handed to another client instance through an X window
    property: a count, then ids and terminated names. */
module RawFormatList {
  import opened Bytes
  import opened Conversion
  import opened FormatList

  const MAX_FORMATS := 255

  // ----- what is written -----

  function EntryBytes(f: Format): seq<byte>
  {
    Le32(f.formatId) + NameOf(f) + [0]
  }

  function EntriesBytes(fs: seq<Format>): seq<byte>
  {
    if fs == [] then [] else EntryBytes(fs[0]) + EntriesBytes(fs[1..])
  }

  /** The formats before the last, which is the synthetic CF_RAW. */
  function Announced(fs: seq<Format>): seq<Format>
  {
    if fs == [] then [] else fs[..|fs| - 1]
  }

  // ----- what is read -----

  /** A terminated string and the offset behind it. */
  function ReadString(s: seq<byte>, at: nat): (r: Option<(seq<byte>, nat)>)
    requires at <= |s|
    ensures r.Some? ==> at < r.value.1 <= |s|
    decreases |s| - at
  {
    if at == |s| then None
    else if s[at] == 0 then Some(([], at + 1))
    else
      match ReadString(s, at + 1)
      case None => None
      case Some((name, end)) => Some(([s[at]] + name, end))
  }

  function ReadEntries(s: seq<byte>, at: nat, n: nat): Option<seq<Format>>
    requires at <= |s|
    decreases n
  {
    if n == 0 then Some([])
    else if |s| - at < 4 then None
    else
      match ReadString(s, at + 4)
      case None => None
      case Some((name, end)) =>
        match ReadEntries(s, end, n - 1)
        case None => None
        case Some(fs) => Some([Format(FromLe32(s, at), Some(name))] + fs)
  }

  function ParseList(s: seq<byte>): Option<seq<Format>>
  {
    if |s| < 4 || FromLe32(s, 0) > MAX_FORMATS then None else ReadEntries(s, 4, FromLe32(s, 0))
  }

  // ----- the handlers -----

  lemma {:induction false} EntriesSnoc(fs: seq<Format>, f: Format)
    ensures EntriesBytes(fs + [f]) == EntriesBytes(fs) + EntryBytes(f)
  {
    if fs == [] {
      assert fs + [f] == [f] && [f][1..] == [];
    } else {
      assert (fs + [f])[1..] == fs[1..] + [f];
      EntriesSnoc(fs[1..], f);
    }
  }

  /** xf_cliprdr_serialize_server_format_list */
  method Serialize(formats: seq<Format>) returns (s: seq<byte>)
    requires |formats| < 0x1_0000_0000
    ensures s == Le32(|Announced(formats)|) + EntriesBytes(Announced(formats))
  {
    var count := if |formats| > 0 then |formats| - 1 else 0;
    s := Le32(count);
    ghost var head := s;
    for i := 0 to count
      invariant s == head + EntriesBytes(formats[..i])
    {
      EntriesSnoc(formats[..i], formats[i]);
      assert formats[..i + 1] == formats[..i] + [formats[i]];
      ghost var done := s;
      s := s + Le32(formats[i].formatId);
      if formats[i].formatName.Some? {
        s := s + formats[i].formatName.value;
      }
      s := s + [0];
      assert s == done + EntryBytes(formats[i]);
    }
  }

  /** strnlen at the cursor and the seek behind the terminator. */
  method NextString(s: seq<byte>, at: nat) returns (r: Option<(seq<byte>, nat)>)
    requires at <= |s|
    ensures r == ReadString(s, at)
  {
    var n := 0;
    ghost var goal := ReadString(s, at);
    assert goal.Some? ==> s[at..at] + goal.value.0 == goal.value.0;
    while at + n < |s| && s[at + n] != 0
      invariant at + n <= |s|
      invariant goal == match ReadString(s, at + n) {
                          case None => None
                          case Some((name, end)) => Some((s[at..at + n] + name, end))
                        }
    {
      ghost var c := s[at + n];
      assert s[at..at + n + 1] == s[at..at + n] + [c];
      assert forall name: seq<byte> {:trigger [c] + name} :: s[at..at + n] + ([c] + name) == s[at..at + n] + [c] + name;
      n := n + 1;
    }
    if at + n == |s| {
      return None;
    }
    assert s[at..at + n] + [] == s[at..at + n];
    return Some((s[at..at + n], at + n + 1));
  }

  /** xf_cliprdr_parse_server_format_list */
  method Parse(s: seq<byte>) returns (r: Option<seq<Format>>)
    ensures r == ParseList(s)
  {
    if |s| < 4 {
      return None;
    }
    var count := FromLe32(s, 0);
    if count > MAX_FORMATS {
      return None;
    }
    var at, formats := 4, [];
    ghost var goal := ReadEntries(s, 4, count);
    assert goal.Some? ==> [] + goal.value == goal.value;
    for i := 0 to count
      invariant 0 <= at <= |s|
      invariant goal == match ReadEntries(s, at, count - i) { case None => None case Some(fs) => Some(formats + fs) }
    {
      if |s| - at < 4 {
        return None;
      }
      var id := FromLe32(s, at);
      var name := NextString(s, at + 4);
      if name.None? {
        return None;
      }
      ghost var f := Format(id, Some(name.value.0));
      ghost var rest := ReadEntries(s, name.value.1, count - i - 1);
      assert rest.Some? ==> formats + ([f] + rest.value) == formats + [f] + rest.value;
      formats := formats + [Format(id, Some(name.value.0))];
      at := name.value.1;
    }
    assert formats + [] == formats;
    return Some(formats);
  }

  // ----- the round trip -----

  /** An absent name comes back as the empty string. */
  function Named(fs: seq<Format>): (r: seq<Format>)
    ensures |r| == |fs|
  {
    seq(|fs|, i requires 0 <= i < |fs| => Format(fs[i].formatId, Some(NameOf(fs[i]))))
  }

  lemma {:induction false} StringBack(a: seq<byte>, name: seq<byte>, rest: seq<byte>)
    requires NoZero(name)
    ensures ReadString(a + (name + [0] + rest), |a|) == Some((name, |a| + |name| + 1))
    decreases |name|
  {
    var s := a + (name + [0] + rest);
    if name != [] {
      StringBack(a + [name[0]], name[1..], rest);
      assert s == a + [name[0]] + (name[1..] + [0] + rest);
      assert name == [name[0]] + name[1..];
    }
  }

  lemma EntryBack(a: seq<byte>, f: Format, rest: seq<byte>)
    requires IsCString(f)
    ensures var s := a + (EntryBytes(f) + rest);
            && FromLe32(s, |a|) == f.formatId
            && ReadString(s, |a + Le32(f.formatId)|) == Some((NameOf(f), |a + EntryBytes(f)|))
  {
    var id, name := Le32(f.formatId), NameOf(f);
    PullOut(a, id, name, [0], rest);
    Le32Inside(a, f.formatId, name + [0] + rest);
    StringBack(a + id, name, rest);
    assert |a + id| + |name| + 1 == |a + EntryBytes(f)|;
  }

  lemma {:induction false} EntriesBack(a: seq<byte>, fs: seq<Format>)
    requires AllCStrings(fs)
    ensures ReadEntries(a + EntriesBytes(fs), |a|, |fs|) == Some(Named(fs))
    decreases |fs|
  {
    if fs != [] {
      assert fs[0] in fs;
      EntryBack(a, fs[0], EntriesBytes(fs[1..]));
      EntriesBack(a + EntryBytes(fs[0]), fs[1..]);
      Associate(a, EntryBytes(fs[0]), EntriesBytes(fs[1..]));
      assert Named(fs) == [Format(fs[0].formatId, Some(NameOf(fs[0])))] + Named(fs[1..]);
    }
  }

  /** What one instance serializes of a non-empty list another parses to the same ids and
      names in order, if and only if there are at most 255 formats before the synthetic one. */
  lemma RawListRoundTrip(fs: seq<Format>)
    requires AllCStrings(fs) && |fs| < 0x1_0000_0000 && Announced(fs) != []
    ensures ParseList(Le32(|Announced(fs)|) + EntriesBytes(Announced(fs))) == Some(Named(Announced(fs)))
       <==> |Announced(fs)| <= MAX_FORMATS
  {
    var list := Announced(fs);
    var s := Le32(|list|) + EntriesBytes(list);
    assert s[0..4] == Le32(|list|);
    Le32At(s, 0, |list|);
    EntriesBack(Le32(|list|), list);
  }
}
