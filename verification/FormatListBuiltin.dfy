/** Format names in builds with the built-in converter, which refuses malformed input. */
module FormatListBuiltin {
  import opened Bytes
  import opened Conversion
  import opened Unicode
  import opened FormatList
  import opened FormatListLong

  /** Only ASCII names survive: any other is cut, and cut it stands for fewer bytes. */
  lemma SurvivesIffAscii(f: Format)
    requires IsCString(f)
    ensures Survives(BUILTIN, f) <==> AsciiName(f)
  {
    var name := NameOf(f);
    BuiltinSound();
    if AsciiName(f) {
      AsciiSurvives(BUILTIN, f);
      SurvivesIsSurviving(BUILTIN, f);
    } else if Utf8To16(name).Some? {
      NonAsciiShrinks(name);
      var part := name[..|Utf8To16(name).value|];
      if Utf8To16(part).Some? {
        RoundTrip(part);
      }
    }
  }

  /** With long names and the built-in converter, a list survives being written and read if
      and only if every name is ASCII. */
  lemma LongRoundTripIffAscii(fs: seq<Format>)
    requires AllCStrings(fs)
    ensures WriteThenRead(BUILTIN, fs, []) == Ok(NormalAll(fs)) <==> forall f | f in fs :: AsciiName(f)
  {
    BuiltinSound();
    LongRoundTripIff(BUILTIN, fs);
    forall f | f in fs
      ensures Survives(BUILTIN, f) <==> AsciiName(f)
    {
      SurvivesIffAscii(f);
    }
  }

  /** A name that is not ASCII is read back shorter, if it could be written at all. */
  lemma OtherNameShortened(f: Format, rest: seq<byte>)
    requires IsCString(f) && !AsciiName(f) && WriteEntry(BUILTIN, true, false, f).Some?
    ensures match Parse(BUILTIN, WriteEntry(BUILTIN, true, false, f).value + rest)
            case None => true
            case Some(fs) => fs != [] && fs[0].formatName.Some? && |fs[0].formatName.value| < |f.formatName.value|
  {
    var name := f.formatName.value;
    BuiltinSound();
    var u, fill := WrittenEntry(BUILTIN, f);
    PaddedHead(BUILTIN, f.formatId, u, fill, rest);
    NonAsciiShrinks(name);
    RoundTrip(name[..|Utf8To16(name).value|]);
  }

  // ----- a list whose second id is misread -----

  /** The accented e and its pair. */
  lemma AccentsConvert(one: seq<byte>, two: seq<byte>)
    requires one == [0xC3, 0xA9] && two == one + one
    ensures Utf8To16(one) == Some([0xE9]) && Utf8To16(two) == Some([0xE9, 0xE9]) && Utf16To8([0xE9]) == Some(one)
  {
    assert IsLegal(one, 2) && CodePoint(one, 2) == 0xE9;
    assert Head(one) == Some((2, [0xE9]));
    Utf8Step(one, 2, [0xE9]);
    assert one[2..] == [] && two[2..] == one && [0xE9] + [] == [0xE9];
    HeadOfLonger(one, one);
    Utf8Step(two, 2, [0xE9]);
    var e: seq<uint16> := [0xE9];
    assert e + e == [0xE9, 0xE9];
    assert Tight(one);
    RoundTrip(one);
  }

  /** Two units are counted for the pair, so its first two bytes are converted. */
  lemma PairEntry(cv: Converter, f: Format, one: seq<byte>)
    requires |one| == 2 && f.formatName == Some(one + one)
    requires WideLength(cv, one + one) == Some(2) && cv.widen(one) == Some([0xE9])
    ensures WriteEntry(cv, true, false, f) == Some(Le32(f.formatId) + (Wide([0xE9]) + [0, 0] + [0, 0]))
  {
    FieldOf(cv, one + one, 2);
    assert (one + one)[..2] == one;
    FieldShape(cv, one, [0xE9], 2);
    assert Zeros(2) == [0, 0];
  }

  lemma AccentEntry(f: Format, one: seq<byte>)
    requires one == [0xC3, 0xA9] && f.formatName == Some(one + one)
    ensures WriteEntry(BUILTIN, true, false, f) == Some(Le32(f.formatId) + (Wide([0xE9]) + [0, 0] + [0, 0]))
  {
    BuiltinSound();
    AccentsConvert(one, one + one);
    SoundLength(BUILTIN, one + one);
    PairEntry(BUILTIN, f, one);
  }

  lemma WriteTwo(f: Format, g: Format, entry: seq<byte>, last: seq<byte>)
    requires WriteEntry(BUILTIN, true, false, f) == Some(entry) && WriteEntry(BUILTIN, true, false, g) == Some(last)
    ensures WriteAll(BUILTIN, true, false, [f, g]) == Some(entry + last)
  {
    assert [g][1..] == [] && last + [] == last;
    assert WriteAll(BUILTIN, true, false, [g]) == Some(last);
    assert [f, g][1..] == [g];
  }

  lemma ShiftedBytes()
    ensures Le32(1) + (Wide([0xE9]) + [0, 0] + [0, 0]) + (Le32(2) + (Wide([]) + [0, 0] + [])) + []
         == Le32(1) + (Wide([0xE9]) + [0, 0] + (Le32(0x2_0000) + (Wide([]) + [0, 0] + [0, 0])))
  {
    assert Le32(2) == [2, 0, 0, 0] && Le32(0x2_0000) == [0, 0, 2, 0];
  }

  lemma ShiftedParse(cv: Converter, first: Format, second: Format)
    requires ToFormat(cv, Record(1, [0xE9])) == Some(first) && ToFormat(cv, Record(0x2_0000, [])) == Some(second)
    ensures Parse(cv, Le32(1) + (Wide([0xE9]) + [0, 0] + (Le32(0x2_0000) + (Wide([]) + [0, 0] + [0, 0]))))
         == Some([first, second])
  {
    ParseHead(cv, 0x2_0000, [], [0, 0]);
    assert Parse(cv, [0, 0]) == Some([]);
    ParseHead(cv, 1, [0xE9], Le32(0x2_0000) + (Wide([]) + [0, 0] + [0, 0]));
    assert [first] + ([second] + []) == [first, second];
  }

  /** The name loses its second character and the zeros left over shift every entry
      that follows: the id 2 is read as 0x20000. */
  lemma ShiftedList(f: Format, g: Format, one: seq<byte>)
    requires one == [0xC3, 0xA9] && f == Format(1, Some(one + one)) && g == Format(2, None)
    ensures WriteThenRead(BUILTIN, [f, g], []) == Ok([Format(1, Some(one)), Format(0x2_0000, None)])
  {
    AccentEntry(f, one);
    AccentsConvert(one, one + one);
    NoNameField(BUILTIN, g);
    var entry := Le32(1) + (Wide([0xE9]) + [0, 0] + [0, 0]);
    var last := Le32(2) + (Wide([]) + [0, 0] + []);
    WriteTwo(f, g, entry, last);
    ShiftedBytes();
    ShiftedParse(BUILTIN, Format(1, Some(one)), Format(0x2_0000, None));
  }
}
