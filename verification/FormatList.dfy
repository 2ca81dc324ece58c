/** The clipboard format list on the wire, sections 2.2.3.1.1.1 and 2.2.3.1.2.1 of
    MS-RDPECLIP: what the writer and the reader of its three layouts compute. */
module FormatList {
  import opened Bytes
  import opened Conversion

  /** Names are UTF-8. */
  datatype Format = Format(formatId: uint32, formatName: Option<seq<byte>>)

  /** The name is a C string. */
  predicate IsCString(f: Format)
  {
    f.formatName.Some? ==> NoZero(f.formatName.value)
  }

  predicate AllCStrings(fs: seq<Format>)
  {
    forall f | f in fs :: IsCString(f)
  }

  function NameOf(f: Format): seq<byte>
  {
    if f.formatName.None? then [] else f.formatName.value
  }

  function Wide(u: seq<uint16>): (s: seq<byte>)
    ensures |s| == 2 * |u|
  {
    if u == [] then [] else Le16(u[0]) + Wide(u[1..])
  }

  // ----- writing -----

  /** Stream_Write_UTF16_String_From_UTF8 with fill: `maxLength` units in all. */
  function UnicodeField(cv: Converter, bytes: seq<byte>, maxLength: nat): Option<seq<byte>>
  {
    if bytes == [] then Some(Zeros(2 * maxLength)) else
    match cv.widen(bytes)
    case None => None
    case Some(u) =>
      if u == [] || |u| > maxLength then None else Some(Wide(u) + Zeros(2 * (maxLength - |u|)))
  }

  /** The name field of a name that takes `wide` units. No converter makes more units than
      there are bytes, so a name is never read past its end. */
  function WriteField(cv: Converter, useLong: bool, useAscii: bool, name: Option<seq<byte>>, wide: nat)
    : Option<seq<byte>>
  {
    var maxLength := if useLong then wide + 1 else if useAscii then 32 else 16;
    var length := if useLong then wide else Min(maxLength - 1, wide);
    if name.Some? && length > 0 then
      if useAscii then
        var part := name.value[..Min(|name.value|, length)];
        Some(part + Zeros(maxLength - |part|))
      else UnicodeField(cv, name.value[..Min(|name.value|, maxLength - 1)], maxLength)
    else
      Some(Zeros(maxLength * if useLong || !useAscii then 2 else 1))
  }

  /** The name field of one entry of cliprdr_packet_format_list_new. */
  function WriteName(cv: Converter, useLong: bool, useAscii: bool, name: Option<seq<byte>>): Option<seq<byte>>
  {
    if name.None? then WriteField(cv, useLong, useAscii, name, 0) else
    match WideLength(cv, name.value)
    case None => None
    case Some(wide) => WriteField(cv, useLong, useAscii, name, wide)
  }

  function WriteEntry(cv: Converter, useLong: bool, useAscii: bool, f: Format): Option<seq<byte>>
  {
    Prepended(Le32(f.formatId), WriteName(cv, useLong, useAscii, f.formatName))
  }

  function WriteAll(cv: Converter, useLong: bool, useAscii: bool, fs: seq<Format>): Option<seq<byte>>
  {
    if fs == [] then Some([]) else
    match WriteEntry(cv, useLong, useAscii, fs[0])
    case None => None
    case Some(entry) => Prepended(entry, WriteAll(cv, useLong, useAscii, fs[1..]))
  }

  // ----- reading long names -----

  /** One entry before its name is converted. */
  datatype Record = Record(formatId: uint32, units: seq<uint16>)

  /** Cut a payload into records from `pos` on; fewer than four bytes at the end are
      padding. */
  function SplitFrom(data: seq<byte>, pos: nat): Option<seq<Record>>
    requires pos <= |data|
    decreases |data| - pos
  {
    if |data| - pos < 4 then Some([]) else
    match ReadUnits(data, pos + 4)
    case None => None
    case Some((units, end)) =>
      match SplitFrom(data, end)
      case None => None
      case Some(rs) => Some([Record(FromLe32(data, pos), units)] + rs)
  }

  /** The offset at which cutting stops. */
  function SplitEnd(data: seq<byte>, pos: nat): (end: nat)
    requires pos <= |data|
    ensures pos <= end <= |data|
    decreases |data| - pos
  {
    if |data| - pos < 4 || ReadUnits(data, pos + 4).None? then pos
    else SplitEnd(data, ReadUnits(data, pos + 4).value.1)
  }

  function Split(data: seq<byte>): Option<seq<Record>>
  {
    SplitFrom(data, 0)
  }

  /** What precedes the cursor does not matter. */
  lemma {:induction false} SplitShift(a: seq<byte>, b: seq<byte>, pos: nat)
    requires pos <= |b|
    ensures SplitFrom(a + b, |a| + pos) == SplitFrom(b, pos)
    decreases |b| - pos
  {
    if |b| - pos >= 4 {
      ReadUnitsShift(a, b, pos + 4);
      assert FromLe32(a + b, |a| + pos) == FromLe32(b, pos);
      if ReadUnits(b, pos + 4).Some? {
        SplitShift(a, b, ReadUnits(b, pos + 4).value.1);
      }
    }
  }

  function ToFormat(cv: Converter, r: Record): Option<Format>
  {
    if r.units == [] then Some(Format(r.formatId, None)) else
    match NarrowName(cv, r.units, false)
    case None => None
    case Some(name) => Some(Format(r.formatId, Some(name)))
  }

  function ConvertAll(cv: Converter, rs: seq<Record>): (r: Option<seq<Format>>)
    ensures r.Some? ==> |r.value| == |rs|
  {
    if rs == [] then Some([]) else
    match ToFormat(cv, rs[0])
    case None => None
    case Some(f) => Prepended([f], ConvertAll(cv, rs[1..]))
  }

  lemma PrependedNext(done: seq<Format>, f: Format, rest: Option<seq<Format>>)
    ensures Prepended(done, Prepended([f], rest)) == Prepended(done + [f], rest)
  {
    if rest.Some? {
      assert done + ([f] + rest.value) == done + [f] + rest.value;
    }
  }

  lemma PrependedEnds(fs: seq<Format>, r: Option<seq<Format>>)
    ensures Prepended([], r) == r && Prepended(fs, Some([])) == Some(fs)
  {
    assert fs + [] == fs;
    if r.Some? {
      assert [] + r.value == r.value;
    }
  }

  /** Moving one converted record from the records to the formats read so far. */
  lemma ConvertHead(cv: Converter, done: seq<Format>, rs: seq<Record>)
    requires rs != [] && ToFormat(cv, rs[0]).Some?
    ensures Prepended(done, ConvertAll(cv, rs))
         == Prepended(done + [ToFormat(cv, rs[0]).value], ConvertAll(cv, rs[1..]))
  {
    PrependedNext(done, ToFormat(cv, rs[0]).value, ConvertAll(cv, rs[1..]));
  }

  // ----- reading short names -----

  /** strndup of at most 31 characters, or the 16 units up to a zero. */
  function ShortName(cv: Converter, field: seq<byte>, ascii: bool): Option<Option<seq<byte>>>
    requires |field| == 32
  {
    if ascii then
      Some(if field[0] == 0 then None else Some(field[..31][..ZeroIndex(field[..31])]))
    else if FromLe16(field, 0) == 0 then Some(None)
    else
      var u := TakeUnits(field, 0, 16);
      match NarrowName(cv, u, |u| < 16)
      case None => None
      case Some(name) => Some(Some(name))
  }

  function ReadShortFrom(cv: Converter, data: seq<byte>, pos: nat, ascii: bool): Option<seq<Format>>
    requires pos <= |data|
    decreases |data| - pos
  {
    if |data| - pos < 4 then Some([])
    else if |data| - pos < 36 then None
    else
      match ShortName(cv, data[pos + 4..pos + 36], ascii)
      case None => None
      case Some(name) => Prepended([Format(FromLe32(data, pos), name)], ReadShortFrom(cv, data, pos + 36, ascii))
  }

  function ReadShort(cv: Converter, data: seq<byte>, ascii: bool): Option<seq<Format>>
  {
    ReadShortFrom(cv, data, 0, ascii)
  }

  lemma WindowShift(a: seq<byte>, b: seq<byte>, pos: nat)
    requires pos + 36 <= |b|
    ensures (a + b)[|a| + pos + 4..|a| + pos + 36] == b[pos + 4..pos + 36]
    ensures FromLe32(a + b, |a| + pos) == FromLe32(b, pos)
  {
  }

  lemma {:induction false} ReadShortShift(cv: Converter, a: seq<byte>, b: seq<byte>, pos: nat, ascii: bool)
    requires pos <= |b|
    ensures ReadShortFrom(cv, a + b, |a| + pos, ascii) == ReadShortFrom(cv, b, pos, ascii)
    decreases |b| - pos
  {
    if |b| - pos >= 36 {
      ReadShortShift(cv, a, b, pos + 36, ascii);
      WindowShift(a, b, pos);
    }
  }

  // ----- the whole reader -----

  datatype Failure = InvalidData | InternalError | NoMemory

  datatype Result = Ok(formats: seq<Format>) | Error(failure: Failure)

  function ReadPayload(cv: Converter, data: seq<byte>, ascii: bool, useLong: bool): Result
  {
    if data == [] then Ok([])
    else if !useLong then
      if |data| < 36 then Error(NoMemory) else
      match ReadShort(cv, data, ascii)
      case None => Error(InternalError)
      case Some(fs) => Ok(fs)
    else
      match Split(data)
      case None => Error(InternalError)
      case Some(rs) =>
        if rs == [] then Error(NoMemory) else
        match ConvertAll(cv, rs)
        case None => Error(InternalError)
        case Some(fs) => Ok(fs)
  }
}
