/** WinPR's built-in strict conversion between UTF-8 and UTF-16, which builds with
    WITH_UNICODE_BUILTIN use. Other builds use a library of the system. */
module Unicode {
  import opened Bytes
  import opened Conversion

  // ----- UTF-8 to UTF-16 -----

  /** trailingBytesForUTF8 */
  function TrailingBytes(b: byte): nat
  {
    if b < 0xC0 then 0 else if b < 0xE0 then 1 else if b < 0xF0 then 2
    else if b < 0xF8 then 3 else if b < 0xFC then 4 else 5
  }

  /** isLegalUTF8. The leads 0xED and 0xF4 have no lower limit on their second byte. */
  predicate IsLegal(s: seq<byte>, n: nat)
    requires 1 <= n <= |s|
  {
    && n <= 4
    && (n >= 4 ==> 0x80 <= s[3] <= 0xBF)
    && (n >= 3 ==> 0x80 <= s[2] <= 0xBF)
    && (n >= 2 ==>
          && s[1] <= 0xBF
          && (if s[0] == 0xE0 then s[1] >= 0xA0
              else if s[0] == 0xED then s[1] <= 0x9F
              else if s[0] == 0xF0 then s[1] >= 0x90
              else if s[0] == 0xF4 then s[1] <= 0x8F
              else s[1] >= 0x80))
    && !(0x80 <= s[0] < 0xC2)
    && s[0] <= 0xF4
  }

  /** The accumulated bytes less the offset of their count. */
  function CodePoint(s: seq<byte>, n: nat): int
    requires 1 <= n <= |s|
  {
    var b0: int := s[0];
    if n == 1 then b0 else
    var b1: int := s[1];
    if n == 2 then b0 * 0x40 + b1 - 0x3080 else
    var b2: int := s[2];
    if n == 3 then b0 * 0x1000 + b1 * 0x40 + b2 - 0xE2080 else
    var b3: int := s[3];
    b0 * 0x40000 + b1 * 0x1000 + b2 * 0x40 + b3 - 0x3C82080
  }

  /** One code point in UTF-16, unless it is a surrogate or out of range. */
  function Units(ch: int): Option<seq<uint16>>
    requires ch >= 0
  {
    if ch <= 0xFFFF then (if 0xD800 <= ch <= 0xDFFF then None else Some([ch]))
    else if ch > 0x10FFFF then None
    else Some([(ch - 0x10000) / 0x400 + 0xD800, (ch - 0x10000) % 0x400 + 0xDC00])
  }

  /** The first character: its length in bytes and its units. */
  function Head(s: seq<byte>): (r: Option<(nat, seq<uint16>)>)
    requires s != []
    ensures r.Some? ==> 1 <= r.value.0 <= |s| && 1 <= |r.value.1| <= r.value.0
    ensures r.Some? ==> (r.value.0 == 1 <==> s[0] < 0x80) && (r.value.0 >= 2 ==> |r.value.1| < r.value.0)
  {
    var n := TrailingBytes(s[0]) + 1;
    if n > |s| || !IsLegal(s, n) then None else
    assert CodePoint(s, n) >= 0;
    match Units(CodePoint(s, n))
    case None => None
    case Some(u) => Some((n, u))
  }

  /** winpr_ConvertUTF8toUTF16 */
  function Utf8To16(s: seq<byte>): (r: Option<seq<uint16>>)
    ensures r.Some? ==> |r.value| <= |s|
    ensures r.Some? && s != [] ==> r.value != []
    decreases |s|
  {
    if s == [] then Some([]) else
    match Head(s)
    case None => None
    case Some((n, u)) =>
      match Utf8To16(s[n..])
      case None => None
      case Some(rest) => Some(u + rest)
  }

  // ----- UTF-16 to UTF-8 -----

  function Encode(ch: int): seq<byte>
    requires 0 <= ch <= 0x10FFFF
  {
    if ch < 0x80 then [ch]
    else if ch < 0x800 then [ch / 0x40 + 0xC0, ch % 0x40 + 0x80]
    else if ch < 0x10000 then [ch / 0x1000 + 0xE0, ch / 0x40 % 0x40 + 0x80, ch % 0x40 + 0x80]
    else [ch / 0x40000 + 0xF0, ch / 0x1000 % 0x40 + 0x80, ch / 0x40 % 0x40 + 0x80, ch % 0x40 + 0x80]
  }

  /** The first character of UTF-16: its units and its bytes. Surrogates must come in pairs. */
  function Head16(u: seq<uint16>): (r: Option<(nat, seq<byte>)>)
    requires u != []
    ensures r.Some? ==> 1 <= r.value.0 <= |u|
  {
    if 0xD800 <= u[0] <= 0xDBFF then
      if |u| < 2 || !(0xDC00 <= u[1] <= 0xDFFF) then None else
      var hi: int, lo: int := u[0], u[1];
      Some((2, Encode((hi - 0xD800) * 0x400 + (lo - 0xDC00) + 0x10000)))
    else if 0xDC00 <= u[0] <= 0xDFFF then None
    else Some((1, Encode(u[0])))
  }

  /** winpr_ConvertUTF16toUTF8 */
  function Utf16To8(u: seq<uint16>): Option<seq<byte>>
    decreases |u|
  {
    if u == [] then Some([]) else
    match Head16(u)
    case None => None
    case Some((n, b)) => Prepended(b, Utf16To8(u[n..]))
  }

  /** One step of the conversion, given its first character. */
  lemma Utf8Step(s: seq<byte>, n: nat, u: seq<uint16>)
    requires s != [] && Head(s) == Some((n, u))
    ensures Utf8To16(s) == Prepended(u, Utf8To16(s[n..]))
  {
  }

  // ----- ASCII -----

  lemma {:induction false} AsciiWidens(s: seq<byte>)
    requires IsAscii(s)
    ensures Utf8To16(s) == Some(Widen(s))
    decreases |s|
  {
    if s != [] {
      AsciiWidens(s[1..]);
      WidenHead(s);
    }
  }

  lemma TailNotAscii(s: seq<byte>)
    requires s != [] && s[0] < 0x80 && !IsAscii(s)
    ensures !IsAscii(s[1..])
  {
    var i :| 0 <= i < |s| && s[i] >= 0x80;
    assert s[1..][i - 1] == s[i];
  }

  /** Anything else takes fewer units than bytes. */
  lemma {:induction false} NonAsciiShrinks(s: seq<byte>)
    requires Utf8To16(s).Some? && !IsAscii(s)
    ensures |Utf8To16(s).value| < |s|
    decreases |s|
  {
    var (n, u) := Head(s).value;
    Utf8Step(s, n, u);
    if n == 1 {
      TailNotAscii(s);
      NonAsciiShrinks(s[1..]);
    }
  }

  // ----- there and back -----

  /** No character starts with 0xED or 0xF4 and a second byte below 0x80. */
  predicate TightHead(s: seq<byte>)
  {
    |s| >= 2 && (s[0] == 0xED || s[0] == 0xF4) ==> s[1] >= 0x80
  }

  predicate Tight(s: seq<byte>)
    decreases |s|
  {
    s == [] || Head(s).None? || (TightHead(s) && Tight(s[Head(s).value.0..]))
  }

  lemma EncodeTwo(b0: int, b1: int)
    requires 0xC2 <= b0 < 0xE0 && 0x80 <= b1 < 0xC0
    ensures var ch := b0 * 0x40 + b1 - 0x3080;
            0x80 <= ch < 0x800 && Encode(ch) == [b0, b1]
  {
    var ch := b0 * 0x40 + b1 - 0x3080;
    assert ch == (b0 - 0xC0) * 0x40 + (b1 - 0x80);
  }

  lemma EncodeThree(b0: int, b1: int, b2: int)
    requires 0xE0 <= b0 < 0xF0 && 0 <= b1 < 0xC0 && 0x80 <= b2 < 0xC0
    requires b0 == 0xE0 ==> b1 >= 0xA0
    requires b0 != 0xED ==> b1 >= 0x80
    ensures var ch := b0 * 0x1000 + b1 * 0x40 + b2 - 0xE2080;
            && 0x800 <= ch < 0x10000
            && if b1 >= 0x80 then Encode(ch) == [b0, b1, b2] else |Encode(ch)| == 3 && Encode(ch)[0] < b0
  {
    var ch := b0 * 0x1000 + b1 * 0x40 + b2 - 0xE2080;
    if b1 >= 0x80 {
      assert ch == ((b0 - 0xE0) * 0x40 + (b1 - 0x80)) * 0x40 + (b2 - 0x80);
      assert ch / 0x40 == (b0 - 0xE0) * 0x40 + (b1 - 0x80);
    }
  }

  lemma SixBits(hi: int, lo: int, v: int)
    requires 0 <= lo < 0x40 && v == hi * 0x40 + lo
    ensures v / 0x40 == hi && v % 0x40 == lo
  {
  }

  lemma ThreeParts(top: int, mid: int, low: int, ch: int)
    requires 0 <= mid < 0x40 && 0 <= low < 0x40 && ch == top * 0x1000 + mid * 0x40 + low
    ensures ch / 0x1000 == top && ch / 0x40 % 0x40 == mid && ch % 0x40 == low && ch / 0x40000 == top / 0x40
  {
    SixBits(top * 0x40 + mid, low, ch);
    SixBits(top, mid, top * 0x40 + mid);
  }

  lemma EncodeFour(b0: int, b1: int, b2: int, b3: int)
    requires 0xF0 <= b0 <= 0xF4 && 0 <= b1 < 0xC0 && 0x80 <= b2 < 0xC0 && 0x80 <= b3 < 0xC0
    requires b0 == 0xF0 ==> b1 >= 0x90
    requires b0 != 0xF4 ==> b1 >= 0x80
    requires b0 == 0xF4 ==> b1 < 0x90
    ensures var ch := b0 * 0x40000 + b1 * 0x1000 + b2 * 0x40 + b3 - 0x3C82080;
            && 0x10000 <= ch <= 0x10FFFF
            && if b1 >= 0x80 then Encode(ch) == [b0, b1, b2, b3] else |Encode(ch)| == 4 && Encode(ch)[0] < b0
  {
    var ch := b0 * 0x40000 + b1 * 0x1000 + b2 * 0x40 + b3 - 0x3C82080;
    if b1 >= 0x80 {
      var top := (b0 - 0xF0) * 0x40 + (b1 - 0x80);
      SixBits(b0 - 0xF0, b1 - 0x80, top);
      ThreeParts(top, b2 - 0x80, b3 - 0x80, ch);
    }
  }

  lemma EncodeCodePoint(s: seq<byte>, n: nat)
    requires s != [] && n == TrailingBytes(s[0]) + 1 && n <= |s| && IsLegal(s, n)
    ensures 0 <= CodePoint(s, n) <= 0x10FFFF && |Encode(CodePoint(s, n))| == n
    ensures TightHead(s) <==> Encode(CodePoint(s, n)) == s[..n]
  {
    if n == 2 {
      EncodeTwo(s[0], s[1]);
    } else if n == 3 {
      EncodeThree(s[0], s[1], s[2]);
    } else if n == 4 {
      EncodeFour(s[0], s[1], s[2], s[3]);
    }
  }

  lemma PairBack(ch: int)
    requires 0x10000 <= ch <= 0x10FFFF
    ensures var u := Units(ch).value;
            && |u| == 2 && 0xD800 <= u[0] <= 0xDBFF && 0xDC00 <= u[1] <= 0xDFFF
            && (u[0] as int - 0xD800) * 0x400 + (u[1] as int - 0xDC00) + 0x10000 == ch
  {
  }

  /** Decoding what encoding one character gave. */
  lemma HeadBack(s: seq<byte>, rest: seq<uint16>)
    requires s != [] && Head(s).Some? && Utf16To8(rest).Some?
    ensures var (n, u) := Head(s).value;
            && Utf16To8(u + rest) == Some(Encode(CodePoint(s, n)) + Utf16To8(rest).value)
  {
    var (n, u) := Head(s).value;
    var ch := CodePoint(s, n);
    if ch <= 0xFFFF {
      assert u == [ch] && (u + rest)[1..] == rest;
    } else {
      PairBack(ch);
      assert (u + rest)[2..] == rest;
    }
  }

  lemma SplitEqual(a: seq<byte>, b: seq<byte>, n: nat)
    requires n <= |a| && n <= |b|
    ensures a == b <==> a[..n] == b[..n] && a[n..] == b[n..]
  {
    assert a == a[..n] + a[n..] && b == b[..n] + b[n..];
  }

  lemma HeadRound(s: seq<byte>, rest: seq<uint16>)
    requires s != [] && Head(s).Some? && Utf16To8(rest).Some?
    ensures var (n, u) := Head(s).value;
            && Utf16To8(u + rest).Some?
            && |Utf16To8(u + rest).value| == n + |Utf16To8(rest).value|
            && (TightHead(s) <==> Utf16To8(u + rest).value[..n] == s[..n])
            && Utf16To8(u + rest).value[n..] == Utf16To8(rest).value
  {
    HeadBack(s, rest);
    EncodeCodePoint(s, Head(s).value.0);
  }

  /** The round trip keeps the length of every name that converts, and the name itself
      if and only if it is tight. */
  lemma {:induction false} RoundTrip(s: seq<byte>)
    requires Utf8To16(s).Some?
    ensures Utf16To8(Utf8To16(s).value).Some?
    ensures |Utf16To8(Utf8To16(s).value).value| == |s|
    ensures Tight(s) <==> Utf16To8(Utf8To16(s).value).value == s
    decreases |s|
  {
    if s != [] {
      var (n, u) := Head(s).value;
      var rest := Utf8To16(s[n..]).value;
      RoundTrip(s[n..]);
      assert Utf8To16(s) == Some(u + rest);
      assert Tight(s) <==> TightHead(s) && Tight(s[n..]);
      HeadRound(s, rest);
      SplitEqual(s, Utf16To8(u + rest).value, n);
    }
  }

  /** A string in the gap comes back as another one. */
  lemma GapChanged(s: seq<byte>)
    requires s == [0xED, 0x41, 0x80]
    ensures Utf8To16(s) == Some([0xC040]) && Utf16To8([0xC040]) == Some([0xEC, 0x81, 0x80])
  {
    assert IsLegal(s, 3) && CodePoint(s, 3) == 0xC040;
    assert Head(s) == Some((3, [0xC040]));
    assert s[3..] == [] && Utf8To16(s[3..]) == Some([]);
    var u: seq<uint16> := [0xC040];
    assert u + [] == u && u[1..] == [];
    assert Encode(0xC040) == [0xEC, 0x81, 0x80];
    assert Utf16To8(u[1..]) == Some([]);
    assert Encode(0xC040) + [] == Encode(0xC040);
  }

  lemma {:induction false} AsciiTight(s: seq<byte>)
    requires IsAscii(s)
    ensures Tight(s)
    decreases |s|
  {
    if s != [] {
      AsciiTight(s[1..]);
    }
  }

  // ----- names hold no zero -----

  lemma {:induction false} UnitsHoldNoZero(s: seq<byte>)
    requires Utf8To16(s).Some? && NoZero(s)
    ensures NoZeroUnit(Utf8To16(s).value)
    decreases |s|
  {
    if s != [] {
      var (n, u) := Head(s).value;
      UnitsHoldNoZero(s[n..]);
      assert CodePoint(s, n) != 0;
      assert NoZeroUnit(u);
    }
  }

  lemma HeadOfLonger(s: seq<byte>, t: seq<byte>)
    requires s != [] && TrailingBytes(s[0]) < |s|
    ensures Head(s + t) == Head(s)
  {
    var n := TrailingBytes(s[0]) + 1;
    assert forall i | 0 <= i < n :: (s + t)[i] == s[i];
    assert IsLegal(s + t, n) == IsLegal(s, n);
    assert n <= 4 ==> CodePoint(s + t, n) == CodePoint(s, n);
  }

  /** A terminator does not complete a character that was cut short. */
  lemma HeadCutShort(s: seq<byte>)
    requires s != [] && TrailingBytes(s[0]) >= |s|
    ensures Head(s + [0]).None? && Head(s).None?
  {
    var n := TrailingBytes(s[0]) + 1;
    if n == |s| + 1 {
      assert (s + [0])[n - 1] == 0;
      assert !IsLegal(s + [0], n);
    }
  }

  lemma ZeroWidens()
    ensures Utf8To16([0]) == Some([0])
  {
    AsciiWidens([0]);
    assert Widen([0]) == [0];
  }

  /** The terminator adds one unit, whatever precedes it. */
  lemma {:induction false} TerminatorWidens(s: seq<byte>)
    ensures Utf8To16(s + [0]) == Terminated(Utf8To16(s), 0)
    decreases |s|
  {
    if s == [] {
      ZeroWidens();
      assert s + [0] == [0] && [] + [0] == [0];
    } else if TrailingBytes(s[0]) >= |s| {
      HeadCutShort(s);
    } else {
      HeadOfLonger(s, [0]);
      if Head(s).Some? {
        var (n, u) := Head(s).value;
        TerminatorWidens(s[n..]);
        Utf8Step(s, n, u);
        Utf8Step(s + [0], n, u);
        assert (s + [0])[n..] == s[n..] + [0];
        TerminatorLast(u, Utf8To16(s[n..]), 0);
      }
    }
  }

  lemma Head16OfLonger(u: seq<uint16>)
    requires u != []
    ensures Head16(u + [0]) == Head16(u)
  {
    assert (u + [0])[0] == u[0];
    if |u| >= 2 {
      assert (u + [0])[1] == u[1];
    }
  }

  lemma Utf16Step(u: seq<uint16>, n: nat, b: seq<byte>)
    requires u != [] && Head16(u) == Some((n, b))
    ensures Utf16To8(u) == Prepended(b, Utf16To8(u[n..]))
  {
  }

  /** The same the other way. */
  lemma {:induction false} TerminatorNarrows(u: seq<uint16>)
    ensures Utf16To8(u + [0]) == Terminated(Utf16To8(u), 0)
    decreases |u|
  {
    if u == [] {
      assert u + [0] == [0] && [0][1..] == [] && Encode(0) + [] == [0] && [] + [0] == [0];
      assert Utf16To8([]) == Some([]);
    } else {
      Head16OfLonger(u);
      if Head16(u).Some? {
        var (n, b) := Head16(u).value;
        TerminatorNarrows(u[n..]);
        Utf16Step(u, n, b);
        Utf16Step(u + [0], n, b);
        assert (u + [0])[n..] == u[n..] + [0];
        TerminatorLast(b, Utf16To8(u[n..]), 0);
      }
    }
  }

  // ----- and once more -----

  lemma EncodedTwo(ch: int)
    requires 0x80 <= ch < 0x800
    ensures IsLegal(Encode(ch), 2) && CodePoint(Encode(ch), 2) == ch && TrailingBytes(Encode(ch)[0]) == 1
  {
  }

  lemma EncodedThree(ch: int)
    requires 0x800 <= ch < 0x10000 && !(0xD800 <= ch <= 0xDFFF)
    ensures IsLegal(Encode(ch), 3) && CodePoint(Encode(ch), 3) == ch && TrailingBytes(Encode(ch)[0]) == 2
  {
    var low, mid := ch % 0x40, ch / 0x40 % 0x40;
    assert ch / 0x40 == ch / 0x1000 * 0x40 + mid by { SixBits(ch / 0x1000, mid, ch / 0x1000 * 0x40 + mid); }
  }

  lemma EncodedFour(ch: int)
    requires 0x10000 <= ch <= 0x10FFFF
    ensures IsLegal(Encode(ch), 4) && CodePoint(Encode(ch), 4) == ch && TrailingBytes(Encode(ch)[0]) == 3
  {
    var top, mid := ch / 0x1000, ch / 0x40;
    assert top == mid / 0x40 && top / 0x40 == ch / 0x40000;
    assert ch == mid * 0x40 + ch % 0x40 && mid == top * 0x40 + mid % 0x40;
    assert top == top / 0x40 * 0x40 + top % 0x40;
  }

  /** An encoded character is read as that character. */
  lemma HeadOfEncoded(ch: int)
    requires 0 <= ch <= 0x10FFFF && !(0xD800 <= ch <= 0xDFFF)
    ensures Head(Encode(ch)) == Some((|Encode(ch)|, Units(ch).value))
  {
    if 0x80 <= ch < 0x800 {
      EncodedTwo(ch);
    } else if 0x800 <= ch < 0x10000 {
      EncodedThree(ch);
    } else if ch >= 0x10000 {
      EncodedFour(ch);
    }
  }

  lemma CodePointValid(s: seq<byte>)
    requires s != [] && Head(s).Some?
    ensures var ch := CodePoint(s, Head(s).value.0);
            0 <= ch <= 0x10FFFF && !(0xD800 <= ch <= 0xDFFF) && Units(ch) == Some(Head(s).value.1)
  {
  }

  lemma ReadsEncoded(ch: int, rest: seq<byte>)
    requires 0 <= ch <= 0x10FFFF && !(0xD800 <= ch <= 0xDFFF)
    ensures Utf8To16(Encode(ch) + rest) == Prepended(Units(ch).value, Utf8To16(rest))
  {
    HeadOfEncoded(ch);
    HeadOfLonger(Encode(ch), rest);
    Utf8Step(Encode(ch) + rest, |Encode(ch)|, Units(ch).value);
    assert (Encode(ch) + rest)[|Encode(ch)|..] == rest;
  }

  /** What comes back from UTF-16 converts to the same units again. */
  lemma {:induction false} SameUnitsAgain(s: seq<byte>)
    requires Utf8To16(s).Some?
    ensures Utf16To8(Utf8To16(s).value).Some?
    ensures Utf8To16(Utf16To8(Utf8To16(s).value).value) == Utf8To16(s)
    decreases |s|
  {
    if s != [] {
      var (n, u) := Head(s).value;
      var rest := Utf8To16(s[n..]).value;
      SameUnitsAgain(s[n..]);
      HeadBack(s, rest);
      CodePointValid(s);
      ReadsEncoded(CodePoint(s, n), Utf16To8(rest).value);
    }
  }

  lemma {:induction false} AsciiNarrows(s: seq<byte>)
    requires IsAscii(s)
    ensures Utf16To8(Widen(s)) == Some(s)
    decreases |s|
  {
    if s != [] {
      AsciiNarrows(s[1..]);
      WidenHead(s);
      assert Head16(Widen(s)) == Some((1, [s[0]]));
      assert s == [s[0]] + s[1..];
    }
  }

  const BUILTIN := Converter(Utf8To16, Utf16To8)

  /** The built-in converter obeys every law. */
  lemma BuiltinSound()
    ensures Sound(BUILTIN)
  {
    forall s: seq<byte>
      ensures IsAscii(s) ==> BUILTIN.widen(s) == Some(Widen(s)) && BUILTIN.narrow(Widen(s)) == Some(s)
      ensures BUILTIN.widen(s).Some? && NoZero(s) ==> NoZeroUnit(BUILTIN.widen(s).value)
      ensures BUILTIN.widen(s + [0]) == Terminated(BUILTIN.widen(s), 0)
      ensures BUILTIN.widen(s).Some? ==>
                var back := BUILTIN.narrow(BUILTIN.widen(s).value);
                back.Some? && BUILTIN.widen(back.value) == BUILTIN.widen(s)
    {
      if IsAscii(s) {
        AsciiWidens(s);
        AsciiNarrows(s);
      }
      TerminatorWidens(s);
      if Utf8To16(s).Some? {
        SameUnitsAgain(s);
        if NoZero(s) {
          UnitsHoldNoZero(s);
        }
      }
    }
    forall u: seq<uint16>
      ensures BUILTIN.narrow(u + [0]) == Terminated(BUILTIN.narrow(u), 0)
    {
      TerminatorNarrows(u);
    }
  }
}
