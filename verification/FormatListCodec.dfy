/** cliprdr_packet_format_list_new and cliprdr_read_format_list: the loops over the
    stream, with its cursor, proved against FormatList. */
module FormatListCodec {
  import opened Bytes
  import opened Conversion
  import FL = FormatList

  // ----- writing -----

  lemma {:induction false} WriteAllSnoc(cv: Converter, useLong: bool, useAscii: bool, fs: seq<FL.Format>, f: FL.Format)
    ensures FL.WriteAll(cv, useLong, useAscii, fs + [f])
         == match FL.WriteAll(cv, useLong, useAscii, fs)
            case None => None
            case Some(a) => Prepended(a, FL.WriteEntry(cv, useLong, useAscii, f))
  {
    var c := FL.WriteEntry(cv, useLong, useAscii, f);
    if fs == [] {
      assert fs + [f] == [f] && [f][1..] == [];
      if c.Some? {
        assert c.value + [] == [] + c.value;
      }
    } else {
      assert (fs + [f])[1..] == fs[1..] + [f];
      WriteAllSnoc(cv, useLong, useAscii, fs[1..], f);
      var a, b := FL.WriteEntry(cv, useLong, useAscii, fs[0]), FL.WriteAll(cv, useLong, useAscii, fs[1..]);
      if a.Some? && b.Some? && c.Some? {
        Associate(a.value, b.value, c.value);
      }
    }
  }

  lemma {:induction false} WriteAllStops(cv: Converter, useLong: bool, useAscii: bool, fs: seq<FL.Format>, n: nat)
    requires n <= |fs| && FL.WriteAll(cv, useLong, useAscii, fs[..n]).None?
    ensures FL.WriteAll(cv, useLong, useAscii, fs).None?
    decreases |fs| - n
  {
    if n == |fs| {
      assert fs[..n] == fs;
    } else {
      assert fs[..n + 1] == fs[..n] + [fs[n]];
      WriteAllSnoc(cv, useLong, useAscii, fs[..n], fs[n]);
      WriteAllStops(cv, useLong, useAscii, fs, n + 1);
    }
  }

  lemma WriteNext(cv: Converter, useLong: bool, useAscii: bool, fs: seq<FL.Format>, n: nat, s: seq<byte>)
    requires n < |fs| && FL.WriteAll(cv, useLong, useAscii, fs[..n]) == Some(s)
    ensures match FL.WriteName(cv, useLong, useAscii, fs[n].formatName)
            case None => FL.WriteAll(cv, useLong, useAscii, fs) == None
            case Some(field) =>
              FL.WriteAll(cv, useLong, useAscii, fs[..n + 1]) == Some(s + Le32(fs[n].formatId) + field)
  {
    assert fs[..n + 1] == fs[..n] + [fs[n]];
    WriteAllSnoc(cv, useLong, useAscii, fs[..n], fs[n]);
    match FL.WriteName(cv, useLong, useAscii, fs[n].formatName)
    case None => WriteAllStops(cv, useLong, useAscii, fs, n + 1);
    case Some(field) => Associate(s, Le32(fs[n].formatId), field);
  }

  /** The payload, or nothing if some name cannot be converted. */
  method Write(cv: Converter, formats: seq<FL.Format>, useLong: bool, useAscii: bool) returns (r: Option<seq<byte>>)
    ensures r == FL.WriteAll(cv, useLong, useAscii, formats)
  {
    var s: seq<byte> := [];
    for index := 0 to |formats|
      invariant FL.WriteAll(cv, useLong, useAscii, formats[..index]) == Some(s)
    {
      var format := formats[index];
      WriteNext(cv, useLong, useAscii, formats, index, s);
      var field := FL.WriteName(cv, useLong, useAscii, format.formatName);
      if field.None? {
        return None;
      }
      s := s + Le32(format.formatId);
      s := s + field.value;
    }
    assert formats[..|formats|] == formats;
    return Some(s);
  }

  // ----- reading long names -----

  /** _wcsnlen at the cursor and the seek behind the terminator: the units and the new
      cursor, or nothing if there is no terminator. */
  method NextName(data: seq<byte>, pos: nat) returns (r: Option<(seq<uint16>, nat)>)
    requires pos <= |data|
    ensures r == ReadUnits(data, pos)
  {
    var limit := (|data| - pos) / 2;
    var n, units := 0, [];
    ghost var goal := ReadUnits(data, pos);
    assert goal.Some? ==> [] + goal.value.0 == goal.value.0;
    while n < limit && FromLe16(data, pos + 2 * n) != 0
      invariant n <= limit
      invariant goal == match ReadUnits(data, pos + 2 * n) {
                          case None => None
                          case Some((u, end)) => Some((units + u, end))
                        }
    {
      ghost var c := FromLe16(data, pos + 2 * n);
      assert forall u: seq<uint16> {:trigger [c] + u} :: units + ([c] + u) == units + [c] + u;
      units := units + [FromLe16(data, pos + 2 * n)];
      n := n + 1;
    }
    if 2 * (n + 1) > |data| - pos {
      return None;
    }
    assert units + [] == units;
    return Some((units, pos + 2 * (n + 1)));
  }

  /** The counting pass: how many entries there are, or nothing if one is not terminated. */
  method CountEntries(data: seq<byte>) returns (r: Option<nat>, end: nat)
    ensures r == match FL.Split(data) { case None => None case Some(rs) => Some(|rs|) }
    ensures end == FL.SplitEnd(data, 0)
  {
    var pos, count := 0, 0;
    while |data| - pos >= 4
      invariant pos <= |data| && FL.SplitEnd(data, 0) == FL.SplitEnd(data, pos)
      invariant FL.Split(data).Some? <==> FL.SplitFrom(data, pos).Some?
      invariant FL.Split(data).Some? ==> |FL.Split(data).value| == count + |FL.SplitFrom(data, pos).value|
      decreases |data| - pos
    {
      var name := NextName(data, pos + 4);
      if name.None? {
        return None, pos;
      }
      pos := name.value.1;
      count := count + 1;
    }
    return Some(count), pos;
  }

  /** The filling pass over a payload that was counted. It never meets its index guard,
      fills every entry unless a name does not convert, and stops where counting did. */
  method FillEntries(cv: Converter, data: seq<byte>, count: nat) returns (r: Option<seq<FL.Format>>, end: nat)
    requires FL.Split(data).Some? && count == |FL.Split(data).value|
    ensures r == FL.ConvertAll(cv, FL.Split(data).value)
    ensures r.Some? ==> |r.value| == count && end == FL.SplitEnd(data, 0)
  {
    var pos, index, formats := 0, 0, [];
    ghost var rest := FL.Split(data).value;
    ghost var goal := FL.ConvertAll(cv, rest);
    FL.PrependedEnds([], goal);
    while |data| - pos >= 4
      invariant pos <= |data| && index == |formats| && index + |rest| == count
      invariant FL.SplitFrom(data, pos) == Some(rest) && FL.SplitEnd(data, 0) == FL.SplitEnd(data, pos)
      invariant goal == Prepended(formats, FL.ConvertAll(cv, rest))
      decreases |data| - pos
    {
      if index >= count {
        assert false; // the guard of the source cannot be met
      }
      var name := NextName(data, pos + 4);
      var format := FL.ToFormat(cv, FL.Record(FromLe32(data, pos), name.value.0));
      pos := name.value.1;
      if format.None? {
        return None, pos;
      }
      FL.ConvertHead(cv, formats, rest);
      formats := formats + [format.value];
      index := index + 1;
      rest := rest[1..];
    }
    FL.PrependedEnds(formats, None);
    return Some(formats), pos;
  }

  // ----- reading short names -----

  lemma RecordsLeft(length: nat, k: nat)
    ensures k >= length / 36 <==> length - 36 * k < 36
  {
  }

  /** The loop over 36-byte records; `count` is the payload length over 36. */
  method ReadRecords(cv: Converter, data: seq<byte>, ascii: bool) returns (r: Option<seq<FL.Format>>)
    ensures r == FL.ReadShort(cv, data, ascii)
  {
    var count := |data| / 36;
    var pos, formats := 0, [];
    ghost var goal := FL.ReadShort(cv, data, ascii);
    FL.PrependedEnds([], goal);
    while |data| - pos >= 4
      invariant pos == 36 * |formats| && pos <= |data|
      invariant goal == Prepended(formats, FL.ReadShortFrom(cv, data, pos, ascii))
      decreases |data| - pos
    {
      RecordsLeft(|data|, |formats|);
      if |formats| >= count {
        return None;
      }
      var id := FromLe32(data, pos);
      var name := FL.ShortName(cv, data[pos + 4..pos + 36], ascii);
      if name.None? {
        return None;
      }
      FL.PrependedNext(formats, FL.Format(id, name.value), FL.ReadShortFrom(cv, data, pos + 36, ascii));
      formats := formats + [FL.Format(id, name.value)];
      pos := pos + 36;
    }
    FL.PrependedEnds(formats, None);
    return Some(formats);
  }

  // ----- the whole reader -----

  /** cliprdr_read_format_list on a stream that should hold `length` more bytes. */
  method Read(cv: Converter, stream: seq<byte>, length: nat, ascii: bool, useLong: bool) returns (r: FL.Result)
    ensures r == if length > |stream| then FL.Error(FL.InvalidData)
                 else FL.ReadPayload(cv, stream[..length], ascii, useLong)
  {
    if length > |stream| {
      return FL.Error(FL.InvalidData);
    }
    var data := stream[..length];
    if length == 0 {
      return FL.Ok([]);
    }
    if !useLong {
      if length / 36 == 0 {
        return FL.Error(FL.NoMemory);
      }
      var records := ReadRecords(cv, data, ascii);
      return if records.None? then FL.Error(FL.InternalError) else FL.Ok(records.value);
    }
    var count, _ := CountEntries(data);
    if count.None? {
      return FL.Error(FL.InternalError);
    }
    if count.value == 0 {
      return FL.Error(FL.NoMemory);
    }
    var formats, _ := FillEntries(cv, data, count.value);
    return if formats.None? then FL.Error(FL.InternalError) else FL.Ok(formats.value);
  }
}
