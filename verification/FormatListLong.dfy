/** Long format names: writing a list and reading it back. */
module FormatListLong {
  import opened Bytes
  import opened Conversion
  import opened FormatList

  predicate AsciiName(f: Format)
  {
    f.formatName.Some? ==> IsAscii(f.formatName.value)
  }

  /** An empty name is read back as no name. */
  function Normal(f: Format): Format
  {
    if f.formatName == Some([]) then f.(formatName := None) else f
  }

  function NormalAll(fs: seq<Format>): (r: seq<Format>)
    ensures |r| == |fs|
  {
    seq(|fs|, i requires 0 <= i < |fs| => Normal(fs[i]))
  }

  // ----- one record inside a payload -----

  lemma UnitAt(a: seq<byte>, u: seq<uint16>, rest: seq<byte>)
    requires u != []
    ensures var s := a + (Wide(u) + [0, 0] + rest);
            && FromLe16(s, |a|) == u[0]
            && s == a + Le16(u[0]) + (Wide(u[1..]) + [0, 0] + rest)
  {
    var x, s := Le16(u[0]), a + (Wide(u) + [0, 0] + rest);
    assert Wide(u) == x + Wide(u[1..]);
    PullOut(a, x, Wide(u[1..]), [0, 0], rest);
    assert s[|a|] == x[0] && s[|a| + 1] == x[1];
  }

  /** A written name is read up to its terminator, whatever stands around it. */
  lemma {:induction false} UnitsBack(a: seq<byte>, u: seq<uint16>, rest: seq<byte>)
    requires NoZeroUnit(u)
    ensures ReadUnits(a + (Wide(u) + [0, 0] + rest), |a|) == Some((u, |a| + 2 * |u| + 2))
    decreases |u|
  {
    var s := a + (Wide(u) + [0, 0] + rest);
    if u == [] {
      assert s[|a|] == 0 && s[|a| + 1] == 0;
    } else {
      UnitAt(a, u, rest);
      UnitsBack(a + Le16(u[0]), u[1..], rest);
      assert u == [u[0]] + u[1..];
    }
  }

  /** The same in a field of fixed size. */
  lemma {:induction false} FixedUnitsBack(a: seq<byte>, u: seq<uint16>, rest: seq<byte>, n: nat)
    requires NoZeroUnit(u) && |u| < n && 2 * n <= 2 * |u| + 2 + |rest|
    ensures TakeUnits(a + (Wide(u) + [0, 0] + rest), |a|, n) == u
    decreases |u|
  {
    var s := a + (Wide(u) + [0, 0] + rest);
    if u == [] {
      assert s[|a|] == 0 && s[|a| + 1] == 0;
    } else {
      UnitAt(a, u, rest);
      FixedUnitsBack(a + Le16(u[0]), u[1..], rest, n - 1);
      assert u == [u[0]] + u[1..];
    }
  }

  /** A record at the head of a payload is split off whatever follows it. */
  lemma SplitHead(id: uint32, u: seq<uint16>, rest: seq<byte>)
    requires NoZeroUnit(u)
    ensures Split(Le32(id) + (Wide(u) + [0, 0] + rest))
         == match Split(rest) { case None => None case Some(rs) => Some([Record(id, u)] + rs) }
  {
    var data := Le32(id) + (Wide(u) + [0, 0] + rest);
    assert data[0..4] == Le32(id);
    Le32At(data, 0, id);
    UnitsBack(Le32(id), u, rest);
    var head := Le32(id) + (Wide(u) + [0, 0]);
    assert data == head + rest;
    SplitShift(head, rest, 0);
  }

  // ----- what the writer puts out -----

  lemma ZerosCons(k: nat)
    ensures Zeros(2 * (k + 1)) == [0, 0] + Zeros(2 * k)
  {
  }

  /** A field holds its units, a terminator, and one more zero unit for each unit of
      room that is left. */
  lemma FieldShape(cv: Converter, bytes: seq<byte>, u: seq<uint16>, room: nat)
    requires bytes != [] && cv.widen(bytes) == Some(u) && 0 < |u| <= room
    ensures UnicodeField(cv, bytes, room + 1) == Some(Wide(u) + [0, 0] + Zeros(2 * (room - |u|)))
  {
    ZerosCons(room - |u|);
    Associate(Wide(u), [0, 0], Zeros(2 * (room - |u|)));
  }

  /** Of a name that takes `w` units, only the first `w` bytes are converted. */
  lemma FieldOf(cv: Converter, name: seq<byte>, w: nat)
    requires WideLength(cv, name) == Some(w) && 0 < w <= |name|
    ensures WriteName(cv, true, false, Some(name)) == UnicodeField(cv, name[..w], w + 1)
  {
  }

  lemma NoNameField(cv: Converter, f: Format)
    requires NameOf(f) == [] && (f.formatName.Some? ==> WideLength(cv, []) == Some(0))
    ensures WriteName(cv, true, false, f.formatName) == Some(Wide([]) + [0, 0] + [])
  {
    assert Wide([]) + [0, 0] + [] == [0, 0];
    assert Zeros(2) == [0, 0];
  }

  // ----- entries that come back -----

  /** The first bytes of the name, as many as it takes units, convert to the same units as
      the whole name, and these convert back to the name. */
  ghost predicate Surviving(cv: Converter, f: Format)
  {
    var name := NameOf(f);
    if name == [] then f.formatName.Some? ==> WideLength(cv, []) == Some(0)
    else
      && cv.widen(name).Some?
      && var u := cv.widen(name).value;
      && WideLength(cv, name) == Some(|u|) && 0 < |u| <= |name| && NoZeroUnit(u)
      && cv.widen(name[..|u|]) == Some(u) && NarrowName(cv, u, false) == Some(name)
  }

  ghost predicate AllSurviving(cv: Converter, fs: seq<Format>)
  {
    forall f | f in fs :: Surviving(cv, f)
  }

  /** Such an entry is written with one terminator and read back. */
  lemma SurvivingEntry(cv: Converter, f: Format) returns (u: seq<uint16>)
    requires Surviving(cv, f)
    ensures NoZeroUnit(u) && ToFormat(cv, Record(f.formatId, u)) == Some(Normal(f))
    ensures WriteEntry(cv, true, false, f) == Some(Le32(f.formatId) + (Wide(u) + [0, 0] + []))
  {
    var name := NameOf(f);
    if name == [] {
      u := [];
      NoNameField(cv, f);
    } else {
      u := cv.widen(name).value;
      FieldOf(cv, name, |u|);
      FieldShape(cv, name[..|u|], u, |u|);
      assert Zeros(0) == [];
    }
  }

  function Parse(cv: Converter, data: seq<byte>): Option<seq<Format>>
  {
    match Split(data)
    case None => None
    case Some(rs) => ConvertAll(cv, rs)
  }

  /** Read back, a written record is its format followed by whatever the rest holds. */
  lemma ParseHead(cv: Converter, id: uint32, u: seq<uint16>, rest: seq<byte>)
    requires NoZeroUnit(u)
    ensures Parse(cv, Le32(id) + (Wide(u) + [0, 0] + rest))
         == match (ToFormat(cv, Record(id, u)), Parse(cv, rest))
            case (Some(g), Some(gs)) => Some([g] + gs)
            case _ => None
  {
    SplitHead(id, u, rest);
    if Split(rest).Some? {
      var rs := [Record(id, u)] + Split(rest).value;
      assert rs[1..] == Split(rest).value;
    }
  }

  lemma Regroup(a: seq<byte>, b: seq<byte>, c: seq<byte>, d: seq<byte>, e: seq<byte>)
    ensures a + (b + c + d) + e == a + (b + c + (d + e))
  {
  }

  lemma SurvivingFirst(cv: Converter, fs: seq<Format>, tail: seq<byte>, pad: seq<byte>)
    requires fs != [] && Surviving(cv, fs[0])
    requires WriteAll(cv, true, false, fs[1..]) == Some(tail)
    ensures WriteAll(cv, true, false, fs).Some?
    ensures Parse(cv, WriteAll(cv, true, false, fs).value + pad) == Prepended([Normal(fs[0])], Parse(cv, tail + pad))
  {
    var id := fs[0].formatId;
    var u := SurvivingEntry(cv, fs[0]);
    ParseHead(cv, id, u, tail + pad);
    Regroup(Le32(id), Wide(u), [0, 0], [], tail);
    Regroup(Le32(id), Wide(u), [0, 0], tail, pad);
    assert [] + tail == tail;
  }

  /** Whatever the converter: a list of such entries comes back, padded or not. */
  lemma {:induction false} SurvivorsRoundTrip(cv: Converter, fs: seq<Format>, pad: seq<byte>)
    requires AllSurviving(cv, fs) && |pad| <= 3
    ensures WriteAll(cv, true, false, fs).Some?
    ensures Parse(cv, WriteAll(cv, true, false, fs).value + pad) == Some(NormalAll(fs))
    decreases |fs|
  {
    if fs == [] {
      assert [] + pad == pad;
      assert NormalAll([]) == [];
    } else {
      assert fs[0] in fs;
      SurvivorsRoundTrip(cv, fs[1..], pad);
      SurvivingFirst(cv, fs, WriteAll(cv, true, false, fs[1..]).value, pad);
      assert NormalAll(fs) == [Normal(fs[0])] + NormalAll(fs[1..]);
    }
  }

  function WriteThenRead(cv: Converter, fs: seq<Format>, pad: seq<byte>): Result
  {
    match WriteAll(cv, true, false, fs)
    case None => Error(InternalError)
    case Some(data) => ReadPayload(cv, data + pad, false, true)
  }

  lemma SurvivorsRead(cv: Converter, fs: seq<Format>, pad: seq<byte>)
    requires AllSurviving(cv, fs) && |pad| <= 3 && (fs == [] ==> pad == [])
    ensures WriteThenRead(cv, fs, pad) == Ok(NormalAll(fs))
  {
    SurvivorsRoundTrip(cv, fs, pad);
  }

  // ----- ASCII names, in every build -----

  lemma AsciiSurvives(cv: Converter, f: Format)
    requires AsciiExact(cv) && IsCString(f) && AsciiName(f)
    ensures Surviving(cv, f)
  {
    var name := NameOf(f);
    AsciiLength(cv, name);
    if name != [] {
      AsciiNarrow(cv, name, false);
      assert name[..|name|] == name;
    }
  }

  /** Up to three bytes of padding after a non-empty list make no difference. */
  lemma PaddingIgnored(cv: Converter, fs: seq<Format>, pad: seq<byte>)
    requires AsciiExact(cv) && AllCStrings(fs) && forall f | f in fs :: AsciiName(f)
    requires |pad| <= 3 && (fs == [] ==> pad == [])
    ensures WriteThenRead(cv, fs, pad) == Ok(NormalAll(fs))
  {
    forall f | f in fs
      ensures Surviving(cv, f)
    {
      AsciiSurvives(cv, f);
    }
    SurvivorsRead(cv, fs, pad);
  }

  /** With long names and any converter that is exact on ASCII, every list of ASCII names
      comes back. */
  lemma AsciiRoundTrip(cv: Converter, fs: seq<Format>)
    requires AsciiExact(cv) && AllCStrings(fs) && forall f | f in fs :: AsciiName(f)
    ensures WriteThenRead(cv, fs, []) == Ok(NormalAll(fs))
  {
    PaddingIgnored(cv, fs, []);
  }

  // ----- every other name is lost -----

  /** What is written of a name: units, a terminator and zeros. */
  lemma WrittenEntry(cv: Converter, f: Format) returns (u: seq<uint16>, fill: seq<byte>)
    requires Sound(cv) && IsCString(f) && NameOf(f) != [] && WriteEntry(cv, true, false, f).Some?
    ensures cv.widen(NameOf(f)).Some?
    ensures var w := |cv.widen(NameOf(f)).value|;
            0 < w <= |NameOf(f)| && cv.widen(NameOf(f)[..w]) == Some(u)
    ensures NoZeroUnit(u) && u != []
    ensures WriteEntry(cv, true, false, f) == Some(Le32(f.formatId) + (Wide(u) + [0, 0] + fill))
  {
    var name := NameOf(f);
    SoundLength(cv, name);
    var w := |cv.widen(name).value|;
    FieldOf(cv, name, w);
    assert NoZero(name[..w]);
    u := cv.widen(name[..w]).value;
    FieldShape(cv, name[..w], u, w);
    fill := Zeros(2 * (w - |u|));
  }

  /** Zeros after the terminator do not change the name that is read. */
  lemma PaddedHead(cv: Converter, id: uint32, u: seq<uint16>, fill: seq<byte>, rest: seq<byte>)
    requires NoZeroUnit(u) && u != []
    ensures match Parse(cv, Le32(id) + (Wide(u) + [0, 0] + fill) + rest)
            case None => true
            case Some(fs) => fs != [] && NarrowName(cv, u, false).Some? && fs[0].formatName == NarrowName(cv, u, false)
  {
    Regroup(Le32(id), Wide(u), [0, 0], fill, rest);
    ParseHead(cv, id, u, fill + rest);
  }

  /** If the units that were written convert back to the name, the entry survives. */
  lemma NarrowedBack(cv: Converter, f: Format, u: seq<uint16>)
    requires Sound(cv) && IsCString(f) && NameOf(f) != [] && cv.widen(NameOf(f)).Some? && u != []
    requires cv.widen(NameOf(f)[..|cv.widen(NameOf(f)).value|]) == Some(u)
    requires NarrowName(cv, u, false) == Some(NameOf(f))
    ensures Surviving(cv, f)
  {
    var name := NameOf(f);
    SoundNarrow(cv, name[..|cv.widen(name).value|], u, false);
    assert cv.widen(name) == Some(u);
    SoundLength(cv, name);
  }

  /** An entry that does not survive is read back with another name, if at all. */
  lemma OtherNameChanged(cv: Converter, f: Format, rest: seq<byte>)
    requires Sound(cv) && IsCString(f) && !Surviving(cv, f) && WriteEntry(cv, true, false, f).Some?
    ensures match Parse(cv, WriteEntry(cv, true, false, f).value + rest)
            case None => true
            case Some(fs) => fs != [] && fs[0].formatName.Some? && fs[0].formatName != f.formatName
  {
    SoundEmpty(cv);
    var u, fill := WrittenEntry(cv, f);
    PaddedHead(cv, f.formatId, u, fill, rest);
    if NarrowName(cv, u, false) == Some(NameOf(f)) {
      NarrowedBack(cv, f, u);
    }
  }

  lemma Unpadded(s: seq<byte>)
    ensures s + [] == s
  {
  }

  lemma TailNotSurviving(cv: Converter, fs: seq<Format>)
    requires fs != [] && Surviving(cv, fs[0]) && !AllSurviving(cv, fs)
    ensures !AllSurviving(cv, fs[1..])
  {
    var f :| f in fs && !Surviving(cv, f);
    assert f in fs[1..];
  }

  lemma {:induction false} OtherNamesNotKept(cv: Converter, fs: seq<Format>)
    requires Sound(cv) && AllCStrings(fs) && WriteAll(cv, true, false, fs).Some? && !AllSurviving(cv, fs)
    ensures Parse(cv, WriteAll(cv, true, false, fs).value) != Some(NormalAll(fs))
    decreases |fs|
  {
    var tail := WriteAll(cv, true, false, fs[1..]).value;
    assert fs[0] in fs;
    if !Surviving(cv, fs[0]) {
      OtherNameChanged(cv, fs[0], tail);
      assert NormalAll(fs)[0] == Normal(fs[0]);
    } else {
      TailNotSurviving(cv, fs);
      OtherNamesNotKept(cv, fs[1..]);
      SurvivingFirst(cv, fs, tail, []);
      Unpadded(tail);
      Unpadded(WriteAll(cv, true, false, fs).value);
      assert NormalAll(fs)[1..] == NormalAll(fs[1..]);
    }
  }

  // ----- the law, for every sound converter -----

  /** The same condition without what soundness gives. */
  ghost predicate Survives(cv: Converter, f: Format)
  {
    var name := NameOf(f);
    name == [] ||
    (&& cv.widen(name).Some?
     && var u := cv.widen(name).value;
     && |u| <= |name| && cv.widen(name[..|u|]) == Some(u) && cv.narrow(u) == Some(name))
  }

  lemma SurvivesIsSurviving(cv: Converter, f: Format)
    requires Sound(cv) && IsCString(f)
    ensures Survives(cv, f) <==> Surviving(cv, f)
  {
    var name := NameOf(f);
    SoundLength(cv, name);
    SoundEmpty(cv);
    if name != [] && cv.widen(name).Some? {
      SoundNarrow(cv, name, cv.widen(name).value, false);
    }
  }

  /** With long names and any sound converter, a list survives being written and read if and
      only if each of its names does. */
  lemma LongRoundTripIff(cv: Converter, fs: seq<Format>)
    requires Sound(cv) && AllCStrings(fs)
    ensures WriteThenRead(cv, fs, []) == Ok(NormalAll(fs)) <==> forall f | f in fs :: Survives(cv, f)
  {
    forall f | f in fs
      ensures Survives(cv, f) <==> Surviving(cv, f)
    {
      SurvivesIsSurviving(cv, f);
    }
    if AllSurviving(cv, fs) {
      SurvivorsRead(cv, fs, []);
    } else if WriteAll(cv, true, false, fs).Some? {
      var data := WriteAll(cv, true, false, fs).value;
      assert data + [] == data;
      OtherNamesNotKept(cv, fs);
    }
  }

  // ----- a converter that substitutes U+FFFD for malformed input -----

  const REPLACEMENT: seq<byte> := [0xEF, 0xBF, 0xBD]

  /** The replacement character itself survives there. */
  lemma ReplacementSurvives(cv: Converter, f: Format, u: seq<uint16>)
    requires f.formatName == Some(REPLACEMENT) && u == [0xFFFD]
    requires cv.widen(REPLACEMENT) == Some(u) && cv.widen([0xEF]) == Some(u) && cv.narrow(u) == Some(REPLACEMENT)
    ensures Survives(cv, f)
  {
    assert REPLACEMENT[..1] == [0xEF];
  }

  lemma SingleEntry(cv: Converter, f: Format, u: seq<uint16>, g: Format)
    requires WriteEntry(cv, true, false, f) == Some(Le32(f.formatId) + (Wide(u) + [0, 0] + []))
    requires NoZeroUnit(u) && ToFormat(cv, Record(f.formatId, u)) == Some(g)
    ensures WriteThenRead(cv, [f], []) == Ok([g])
  {
    var entry := Le32(f.formatId) + (Wide(u) + [0, 0] + []);
    assert [f][1..] == [] && entry + [] == entry;
    assert WriteAll(cv, true, false, []) == Some([]);
    assert WriteAll(cv, true, false, [f]) == Some(entry);
    ParseHead(cv, f.formatId, u, []);
    assert Parse(cv, []) == Some([]);
    assert [g] + [] == [g];
  }

  /** And an accented letter, cut in two, comes back as it, a byte longer. */
  lemma CutLetterReplaced(cv: Converter, id: uint32, e: seq<byte>, u: seq<uint16>)
    requires e == [0xC3, 0xA9] && u == [0xFFFD] && WideLength(cv, e) == Some(1)
    requires cv.widen([0xC3]) == Some(u) && cv.narrow(u) == Some(REPLACEMENT)
    ensures WriteThenRead(cv, [Format(id, Some(e))], []) == Ok([Format(id, Some(REPLACEMENT))])
  {
    assert e[..1] == [0xC3];
    FieldOf(cv, e, 1);
    FieldShape(cv, [0xC3], u, 1);
    assert Zeros(0) == [];
    SingleEntry(cv, Format(id, Some(e)), u, Format(id, Some(REPLACEMENT)));
  }
}
