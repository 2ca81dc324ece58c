/** Short format names: 36-byte records in ASCII or Unicode, for every name. */
module FormatListShort {
  import opened Bytes
  import opened Conversion
  import opened FormatList
  import opened FormatListLong

  // ----- what is left of a name -----

  /** The part of a name that fits: in ASCII mode 31 bytes, but never more bytes than the
      name has UTF-16 units; in Unicode mode the first 15 bytes. */
  function Clipped(cv: Converter, name: seq<byte>, ascii: bool): seq<byte>
    requires cv.widen(name).Some?
  {
    name[..Min(|name|, if ascii then Min(31, |cv.widen(name).value|) else 15)]
  }

  /** A name can be written if it converts and, in Unicode mode, the part that fits does. */
  predicate Writable(cv: Converter, f: Format, ascii: bool)
  {
    var name := NameOf(f);
    name == [] || (cv.widen(name).Some? && (!ascii ==> cv.widen(Clipped(cv, name, false)).Some?))
  }

  predicate AllWritable(cv: Converter, fs: seq<Format>, ascii: bool)
  {
    forall f | f in fs :: Writable(cv, f, ascii)
  }

  function Kept(cv: Converter, f: Format, ascii: bool): Format
    requires Writable(cv, f, ascii)
  {
    var name := NameOf(f);
    if name == [] then Format(f.formatId, None)
    else if ascii then Format(f.formatId, Some(Clipped(cv, name, true)))
    else Format(f.formatId, cv.narrow(cv.widen(Clipped(cv, name, false)).value))
  }

  function KeptAll(cv: Converter, fs: seq<Format>, ascii: bool): (r: seq<Format>)
    requires AllWritable(cv, fs, ascii)
    ensures |r| == |fs|
  {
    seq(|fs|, i requires 0 <= i < |fs| => Kept(cv, fs[i], ascii))
  }

  // ----- what a converter must do for one name -----

  /** The units a part of a name converts to, and back. */
  ghost predicate PartLawful(cv: Converter, part: seq<byte>)
  {
    cv.widen(part).Some? ==>
      var u := cv.widen(part).value;
      0 < |u| <= |part| && NoZeroUnit(u) && cv.narrow(u).Some? && NarrowName(cv, u, true) == cv.narrow(u)
  }

  ghost predicate NameLawful(cv: Converter, f: Format, ascii: bool)
  {
    var name := NameOf(f);
    if name == [] then WideLength(cv, []) == Some(0)
    else
      && WideLength(cv, name) == (if cv.widen(name).None? then None else Some(|cv.widen(name).value|))
      && (cv.widen(name).Some? ==> cv.widen(name).value != [])
      && (cv.widen(name).Some? && !ascii ==> PartLawful(cv, Clipped(cv, name, false)))
  }

  ghost predicate AllLawful(cv: Converter, fs: seq<Format>, ascii: bool)
  {
    forall f | f in fs :: NameLawful(cv, f, ascii)
  }

  lemma SoundIsLawful(cv: Converter, f: Format, ascii: bool)
    requires Sound(cv) && IsCString(f)
    ensures NameLawful(cv, f, ascii)
  {
    var name := NameOf(f);
    SoundEmpty(cv);
    SoundLength(cv, name);
    if name != [] && cv.widen(name).Some? && !ascii {
      var part := Clipped(cv, name, false);
      if cv.widen(part).Some? {
        assert NoZero(part);
        SoundNarrow(cv, part, cv.widen(part).value, true);
      }
    }
  }

  lemma AsciiIsLawful(cv: Converter, f: Format, ascii: bool)
    requires AsciiExact(cv) && IsCString(f) && AsciiName(f)
    ensures NameLawful(cv, f, ascii)
  {
    var name := NameOf(f);
    SoundEmpty(cv);
    AsciiLength(cv, name);
    if name != [] && !ascii {
      var part := Clipped(cv, name, false);
      assert IsAscii(part);
      AsciiNarrow(cv, part, true);
    }
  }

  // ----- one record -----

  lemma EmptyField(cv: Converter, f: Format, ascii: bool)
    requires NameOf(f) == [] && WideLength(cv, []) == Some(0)
    ensures WriteName(cv, false, ascii, f.formatName) == Some(Zeros(32))
    ensures ShortName(cv, Zeros(32), ascii) == Some(None)
  {
  }

  lemma ZeroIndexIs(s: seq<byte>, n: nat)
    requires n <= |s| && NoZero(s[..n]) && (n < |s| ==> s[n] == 0)
    ensures ZeroIndex(s) == n
  {
    assert forall i | 0 <= i < n :: s[i] == s[..n][i];
  }

  lemma AsciiField(cv: Converter, part: seq<byte>)
    requires NoZero(part) && 0 < |part| <= 31
    ensures var field := part + Zeros(32 - |part|);
            |field| == 32 && ShortName(cv, field, true) == Some(Some(part))
  {
    var field := part + Zeros(32 - |part|);
    assert field[..31][..|part|] == part;
    assert field[..31][0] == part[0];
    ZeroIndexIs(field[..31], |part|);
  }

  lemma UnicodeFieldBack(cv: Converter, u: seq<uint16>)
    requires NoZeroUnit(u) && 0 < |u| <= 15
    ensures var field := Wide(u) + [0, 0] + Zeros(2 * (15 - |u|));
            && |field| == 32
            && ShortName(cv, field, false)
               == match NarrowName(cv, u, true) { case None => None case Some(name) => Some(Some(name)) }
  {
    var field := Wide(u) + [0, 0] + Zeros(2 * (15 - |u|));
    FixedUnitsBack([], u, Zeros(2 * (15 - |u|)), 16);
    UnitAt([], u, Zeros(2 * (15 - |u|)));
    assert [] + field == field;
  }

  lemma UnicodeKept(cv: Converter, part: seq<byte>)
    requires PartLawful(cv, part) && 0 < |part| <= 15
    ensures match UnicodeField(cv, part, 16)
            case None => cv.widen(part).None?
            case Some(field) =>
              && cv.widen(part).Some? && |field| == 32
              && ShortName(cv, field, false) == Some(cv.narrow(cv.widen(part).value))
  {
    if cv.widen(part).Some? {
      FieldShape(cv, part, cv.widen(part).value, 15);
      UnicodeFieldBack(cv, cv.widen(part).value);
    }
  }

  lemma FieldChosen(cv: Converter, name: seq<byte>, ascii: bool)
    requires name != [] && cv.widen(name).Some? && cv.widen(name).value != []
    requires WideLength(cv, name) == Some(|cv.widen(name).value|)
    ensures var part := Clipped(cv, name, ascii);
            && 0 < |part| <= (if ascii then 31 else 15)
            && WriteName(cv, false, ascii, Some(name))
               == if ascii then Some(part + Zeros(32 - |part|)) else UnicodeField(cv, part, 16)
  {
  }

  /** A name field can be written exactly when the name is writable, takes 32 bytes and
      reads back as what was kept. */
  lemma ShortField(cv: Converter, f: Format, ascii: bool)
    requires IsCString(f) && NameLawful(cv, f, ascii)
    ensures WriteName(cv, false, ascii, f.formatName).Some? <==> Writable(cv, f, ascii)
    ensures Writable(cv, f, ascii) ==>
              var field := WriteName(cv, false, ascii, f.formatName).value;
              |field| == 32 && ShortName(cv, field, ascii) == Some(Kept(cv, f, ascii).formatName)
  {
    var name := NameOf(f);
    if name == [] {
      EmptyField(cv, f, ascii);
    } else if cv.widen(name).Some? {
      var part := Clipped(cv, name, ascii);
      FieldChosen(cv, name, ascii);
      if ascii {
        AsciiField(cv, part);
      } else {
        UnicodeKept(cv, part);
      }
    }
  }

  /** Every record is 36 bytes; it can be written exactly when its name is writable, and
      then reads back as what was kept. */
  lemma ShortEntry(cv: Converter, f: Format, ascii: bool)
    requires IsCString(f) && NameLawful(cv, f, ascii)
    ensures WriteEntry(cv, false, ascii, f).Some? <==> Writable(cv, f, ascii)
    ensures Writable(cv, f, ascii) ==>
              var entry := WriteEntry(cv, false, ascii, f).value;
              && |entry| == 36 && entry[..4] == Le32(f.formatId)
              && ShortName(cv, entry[4..], ascii) == Some(Kept(cv, f, ascii).formatName)
  {
    ShortField(cv, f, ascii);
    if Writable(cv, f, ascii) {
      var field := WriteName(cv, false, ascii, f.formatName).value;
      assert (Le32(f.formatId) + field)[4..] == field;
    }
  }

  // ----- whole lists -----

  lemma ReadRecord(cv: Converter, id: uint32, entry: seq<byte>, rest: seq<byte>, ascii: bool)
    requires |entry| == 36 && entry[..4] == Le32(id)
    ensures ReadShort(cv, entry + rest, ascii)
         == match ShortName(cv, entry[4..], ascii)
            case None => None
            case Some(name) => Prepended([Format(id, name)], ReadShort(cv, rest, ascii))
  {
    var data := entry + rest;
    assert data[4..36] == entry[4..] && data[0..4] == entry[..4];
    Le32At(data, 0, id);
    ReadShortShift(cv, entry, rest, 0, ascii);
  }

  lemma ShortFirst(cv: Converter, fs: seq<Format>, ascii: bool, tail: seq<byte>, pad: seq<byte>)
    requires fs != [] && IsCString(fs[0]) && NameLawful(cv, fs[0], ascii) && Writable(cv, fs[0], ascii)
    requires WriteAll(cv, false, ascii, fs[1..]) == Some(tail)
    ensures WriteAll(cv, false, ascii, fs).Some? && |WriteAll(cv, false, ascii, fs).value| == 36 + |tail|
    ensures ReadShort(cv, WriteAll(cv, false, ascii, fs).value + pad, ascii)
         == Prepended([Kept(cv, fs[0], ascii)], ReadShort(cv, tail + pad, ascii))
  {
    ShortEntry(cv, fs[0], ascii);
    var entry := WriteEntry(cv, false, ascii, fs[0]).value;
    ReadRecord(cv, fs[0].formatId, entry, tail + pad, ascii);
    Associate(entry, tail, pad);
  }

  lemma {:induction false} ShortListWritable(cv: Converter, fs: seq<Format>, ascii: bool)
    requires AllCStrings(fs) && AllLawful(cv, fs, ascii)
    ensures WriteAll(cv, false, ascii, fs).Some? <==> AllWritable(cv, fs, ascii)
    decreases |fs|
  {
    if fs != [] {
      assert fs[0] in fs;
      ShortEntry(cv, fs[0], ascii);
      ShortListWritable(cv, fs[1..], ascii);
      assert forall f :: f in fs <==> f == fs[0] || f in fs[1..];
    }
  }

  lemma KeptFirst(cv: Converter, fs: seq<Format>, ascii: bool)
    requires fs != [] && AllWritable(cv, fs, ascii)
    ensures AllWritable(cv, fs[1..], ascii) && Writable(cv, fs[0], ascii)
    ensures KeptAll(cv, fs, ascii) == [Kept(cv, fs[0], ascii)] + KeptAll(cv, fs[1..], ascii)
  {
    assert fs[0] in fs;
    var all, rest := KeptAll(cv, fs, ascii), KeptAll(cv, fs[1..], ascii);
    forall i | 0 <= i < |rest|
      ensures all[i + 1] == rest[i]
    {
      assert fs[1..][i] == fs[i + 1];
    }
  }

  lemma {:induction false} ShortListBack(cv: Converter, fs: seq<Format>, ascii: bool, pad: seq<byte>)
    requires AllCStrings(fs) && AllLawful(cv, fs, ascii) && AllWritable(cv, fs, ascii) && |pad| <= 3
    ensures WriteAll(cv, false, ascii, fs).Some? && |WriteAll(cv, false, ascii, fs).value| == 36 * |fs|
    ensures ReadShort(cv, WriteAll(cv, false, ascii, fs).value + pad, ascii) == Some(KeptAll(cv, fs, ascii))
    decreases |fs|
  {
    if fs == [] {
      assert [] + pad == pad;
    } else {
      assert fs[0] in fs;
      ShortListBack(cv, fs[1..], ascii, pad);
      ShortFirst(cv, fs, ascii, WriteAll(cv, false, ascii, fs[1..]).value, pad);
      KeptFirst(cv, fs, ascii);
    }
  }

  lemma LawfulRoundTrip(cv: Converter, fs: seq<Format>, ascii: bool, pad: seq<byte>)
    requires AllCStrings(fs) && AllLawful(cv, fs, ascii) && |pad| <= 3 && (fs == [] ==> pad == [])
    ensures WriteAll(cv, false, ascii, fs).Some? <==> AllWritable(cv, fs, ascii)
    ensures AllWritable(cv, fs, ascii) ==>
              && |WriteAll(cv, false, ascii, fs).value| == 36 * |fs|
              && ReadPayload(cv, WriteAll(cv, false, ascii, fs).value + pad, ascii, false) == Ok(KeptAll(cv, fs, ascii))
  {
    ShortListWritable(cv, fs, ascii);
    if AllWritable(cv, fs, ascii) {
      ShortListBack(cv, fs, ascii, pad);
    }
  }

  /** The short layouts for every list of names and every sound converter: it can be written
      exactly when every name is writable, takes 36 bytes an entry, and reads back as what
      was kept of it, padding or not. */
  lemma ShortRoundTrip(cv: Converter, fs: seq<Format>, ascii: bool, pad: seq<byte>)
    requires Sound(cv) && AllCStrings(fs) && |pad| <= 3 && (fs == [] ==> pad == [])
    ensures WriteAll(cv, false, ascii, fs).Some? <==> AllWritable(cv, fs, ascii)
    ensures AllWritable(cv, fs, ascii) ==>
              && |WriteAll(cv, false, ascii, fs).value| == 36 * |fs|
              && ReadPayload(cv, WriteAll(cv, false, ascii, fs).value + pad, ascii, false) == Ok(KeptAll(cv, fs, ascii))
  {
    forall f | f in fs
      ensures NameLawful(cv, f, ascii)
    {
      SoundIsLawful(cv, f, ascii);
    }
    LawfulRoundTrip(cv, fs, ascii, pad);
  }

  // ----- ASCII names, in every build -----

  /** The first 31 or 15 characters of a name. */
  function Cut(f: Format, ascii: bool): Format
  {
    var name := NameOf(f);
    Format(f.formatId, if name == [] then None else Some(name[..Min(|name|, if ascii then 31 else 15)]))
  }

  /** ASCII names are always writable and lose only what lies beyond 31 or 15 characters. */
  lemma AsciiNamesKept(cv: Converter, f: Format, ascii: bool)
    requires AsciiExact(cv) && AsciiName(f)
    ensures Writable(cv, f, ascii) && Kept(cv, f, ascii) == Cut(f, ascii)
  {
    var name := NameOf(f);
    assert cv.widen(name) == Some(Widen(name));
    var part := name[..Min(|name|, 15)];
    assert IsAscii(part) && cv.widen(part) == Some(Widen(part));
  }

  /** With short names and any converter that is exact on ASCII, a list of ASCII names comes
      back with every name cut. */
  lemma AsciiShortRoundTrip(cv: Converter, fs: seq<Format>, ascii: bool, pad: seq<byte>)
    requires AsciiExact(cv) && AllCStrings(fs) && |pad| <= 3 && (fs == [] ==> pad == [])
    requires forall f | f in fs :: AsciiName(f)
    ensures WriteAll(cv, false, ascii, fs).Some? && |WriteAll(cv, false, ascii, fs).value| == 36 * |fs|
    ensures ReadPayload(cv, WriteAll(cv, false, ascii, fs).value + pad, ascii, false)
         == Ok(seq(|fs|, i requires 0 <= i < |fs| => Cut(fs[i], ascii)))
  {
    forall f | f in fs
      ensures NameLawful(cv, f, ascii) && Writable(cv, f, ascii) && Kept(cv, f, ascii) == Cut(f, ascii)
    {
      AsciiIsLawful(cv, f, ascii);
      AsciiNamesKept(cv, f, ascii);
    }
    LawfulRoundTrip(cv, fs, ascii, pad);
    assert KeptAll(cv, fs, ascii) == seq(|fs|, i requires 0 <= i < |fs| => Cut(fs[i], ascii));
  }

  // ----- which lengths are accepted -----

  lemma {:induction false} ShortLengths(cv: Converter, data: seq<byte>, pos: nat)
    requires pos <= |data|
    ensures ReadShortFrom(cv, data, pos, true).Some? <==> (|data| - pos) % 36 <= 3
    ensures ReadShortFrom(cv, data, pos, true).Some? ==>
              |ReadShortFrom(cv, data, pos, true).value| == (|data| - pos) / 36
    decreases |data| - pos
  {
    if |data| - pos >= 36 {
      ShortLengths(cv, data, pos + 36);
    }
  }

  /** An ASCII payload is accepted exactly when it is empty or whole records with at most
      three bytes more. */
  lemma AsciiAcceptance(cv: Converter, data: seq<byte>)
    ensures ReadPayload(cv, data, true, false).Ok? <==> |data| == 0 || (|data| >= 36 && |data| % 36 <= 3)
    ensures ReadPayload(cv, data, true, false).Ok? ==> |ReadPayload(cv, data, true, false).formats| == |data| / 36
  {
    ShortLengths(cv, data, 0);
  }
}
