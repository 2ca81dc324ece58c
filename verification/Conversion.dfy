/** Conversion between UTF-8 and UTF-16 as the clipboard uses it. Which converter a build
    has is a build option, so here it is a pair of functions and the laws it may obey. */
module Conversion {
  import opened Bytes

  /** int_MultiByteToWideChar and int_WideCharToMultiByte with enough room. */
  datatype Converter = Converter(widen: seq<byte> -> Option<seq<uint16>>, narrow: seq<uint16> -> Option<seq<byte>>)

  predicate NoZero(s: seq<byte>)
  {
    forall i | 0 <= i < |s| :: s[i] != 0
  }

  predicate NoZeroUnit(u: seq<uint16>)
  {
    forall i | 0 <= i < |u| :: u[i] != 0
  }

  predicate IsAscii(s: seq<byte>)
  {
    forall i | 0 <= i < |s| :: s[i] < 0x80
  }

  function Widen(s: seq<byte>): seq<uint16>
  {
    seq(|s|, i requires 0 <= i < |s| => s[i])
  }

  function Terminated<T>(s: Option<seq<T>>, zero: T): Option<seq<T>>
  {
    if s.None? then None else Some(s.value + [zero])
  }

  function Prepended<T>(s: seq<T>, rest: Option<seq<T>>): Option<seq<T>>
  {
    if rest.None? then None else Some(s + rest.value)
  }

  lemma TerminatorLast<T>(s: seq<T>, rest: Option<seq<T>>, zero: T)
    ensures Prepended(s, Terminated(rest, zero)) == Terminated(Prepended(s, rest), zero)
  {
    if rest.Some? {
      assert s + (rest.value + [zero]) == s + rest.value + [zero];
    }
  }

  lemma WidenHead(s: seq<byte>)
    requires s != []
    ensures Widen(s) == [s[0]] + Widen(s[1..]) && Widen(s)[1..] == Widen(s[1..])
  {
  }

  // ----- how the clipboard calls it -----

  /** ConvertUtf8ToWChar without a buffer: the length of a terminated string. */
  function WideLength(cv: Converter, name: seq<byte>): Option<nat>
  {
    match cv.widen(name + [0])
    case None => None
    case Some(u) => if u == [] then None else Some(|u| - 1)
  }

  /** ConvertWCharNToUtf8Alloc on units without a zero, followed by one or not. */
  function NarrowName(cv: Converter, u: seq<uint16>, terminated: bool): Option<seq<byte>>
  {
    match cv.narrow(if terminated then u + [0] else u)
    case None => None
    case Some(s) => if s == [] then None else Some(if terminated then s[..|s| - 1] else s)
  }

  // ----- laws -----

  /** ASCII is converted unit by unit, both ways. */
  ghost predicate AsciiExact(cv: Converter)
  {
    && (forall s | IsAscii(s) :: cv.widen(s) == Some(Widen(s)))
    && (forall s | IsAscii(s) :: cv.narrow(Widen(s)) == Some(s))
  }

  ghost predicate NeverExpands(cv: Converter)
  {
    forall s | cv.widen(s).Some? :: |cv.widen(s).value| <= |s| && (s != [] ==> cv.widen(s).value != [])
  }

  ghost predicate AddsNoZeros(cv: Converter)
  {
    forall s | cv.widen(s).Some? && NoZero(s) :: NoZeroUnit(cv.widen(s).value)
  }

  ghost predicate Terminates(cv: Converter)
  {
    && (forall s: seq<byte> {:trigger cv.widen(s + [0])} :: cv.widen(s + [0]) == Terminated(cv.widen(s), 0))
    && (forall u: seq<uint16> {:trigger cv.narrow(u + [0])} :: cv.narrow(u + [0]) == Terminated(cv.narrow(u), 0))
  }

  /** Units that a string converts to are converted back to a string for the same units. */
  ghost predicate Reversible(cv: Converter)
  {
    forall s | cv.widen(s).Some? ::
      var back := cv.narrow(cv.widen(s).value);
      back.Some? && cv.widen(back.value) == cv.widen(s)
  }

  /** What a converter must do for the exact laws about format names; one that substitutes
      malformed input may, and so may one that refuses it. */
  ghost predicate Sound(cv: Converter)
  {
    AsciiExact(cv) && NeverExpands(cv) && AddsNoZeros(cv) && Terminates(cv) && Reversible(cv)
  }

  lemma SoundLength(cv: Converter, name: seq<byte>)
    requires Sound(cv)
    ensures WideLength(cv, name) == if cv.widen(name).None? then None else Some(|cv.widen(name).value|)
  {
  }

  lemma SoundEmpty(cv: Converter)
    requires AsciiExact(cv)
    ensures WideLength(cv, []) == Some(0)
  {
    assert [] + [0] == [0] && IsAscii([0]) && |Widen([0])| == 1;
  }

  lemma SoundNarrow(cv: Converter, s: seq<byte>, u: seq<uint16>, terminated: bool)
    requires Sound(cv) && cv.widen(s) == Some(u) && u != []
    ensures cv.narrow(u).Some? && NarrowName(cv, u, terminated) == cv.narrow(u)
    ensures cv.widen(cv.narrow(u).value) == Some(u)
  {
    var t := cv.narrow(u).value;
    assert cv.widen(t) == Some(u);
    assert |u| <= |t|;
    assert cv.narrow(u + [0]) == Some(t + [0]);
    assert (t + [0])[..|t|] == t;
  }

  lemma AsciiTerminated(s: seq<byte>)
    requires IsAscii(s)
    ensures IsAscii(s + [0]) && Widen(s + [0]) == Widen(s) + [0]
  {
  }

  lemma AsciiLength(cv: Converter, name: seq<byte>)
    requires AsciiExact(cv) && IsAscii(name)
    ensures WideLength(cv, name) == Some(|name|)
  {
    AsciiTerminated(name);
  }

  lemma AsciiNarrow(cv: Converter, name: seq<byte>, terminated: bool)
    requires AsciiExact(cv) && IsAscii(name) && name != []
    ensures NarrowName(cv, Widen(name), terminated) == Some(name)
  {
    AsciiTerminated(name);
    assert (name + [0])[..|name|] == name;
  }
}
