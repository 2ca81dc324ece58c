/** The handlers of the X11 clipboard that serve the server's requests, with the
    reassembly buffer as the array it is. Each is proved to take the provider to the
    value that DataProvider gives for its event. */
module XfDataProvider {
  import opened Bytes
  import opened ClipboardSystem
  import DP = DataProvider

  class Provider {
    const cfg: Config
    var requestedFormatId: FormatId
    var incrStarts: bool
    var incrData: array?<byte>
    var incrLength: nat
    var available: seq<Atom>
    var isImageContent: bool
    var system: System
    var responses: seq<DP.Response>

    function Model(): DP.Provider
      reads this, incrData
    {
      DP.Provider(requestedFormatId, incrStarts, if incrData == null then None else Some(incrData[..]),
                  incrLength, available, isImageContent, system, responses)
    }

    constructor (cfg: Config)
      ensures this.cfg == cfg && Model() == DP.IDLE
    {
      this.cfg := cfg;
      requestedFormatId, incrStarts, incrData, incrLength := DP.NO_REQUEST, false, null, 0;
      available, isImageContent, system, responses := [], false, EMPTY_SYSTEM, [];
    }

    /** xf_cliprdr_is_atom_available */
    method IsAtomAvailable(atom: Atom) returns (found: bool)
      ensures found <==> atom in available
    {
      for x := 0 to |available|
        invariant atom !in available[..x]
      {
        if available[x] == atom {
          return true;
        }
      }
      return false;
    }

    /** xf_cliprdr_get_client_available_format_by_id */
    method AvailableFormatById(id: FormatId) returns (f: Option<ClientFormat>)
      ensures f == DP.Available(cfg, Model(), id)
    {
      var fetchImage := isImageContent && id == FormatIdOf(cfg, HTML_FORMAT);
      for index := 0 to |cfg.clientFormats|
        invariant DP.Available(cfg, Model(), id)
               == DP.AvailableFormat(cfg, cfg.clientFormats[index..], available, isImageContent, id)
      {
        var format := cfg.clientFormats[index];
        var present := IsAtomAvailable(format.atom);
        if present && ((fetchImage && format.isImage) || format.formatToRequest == id) {
          return Some(format);
        }
        assert cfg.clientFormats[index..][1..] == cfg.clientFormats[index + 1..];
      }
      return None;
    }

    /** xf_cliprdr_send_data_response */
    method SendDataResponse(r: DP.Response)
      modifies this`requestedFormatId, this`responses
      ensures Model() == DP.SendDataResponse(old(Model()), r)
    {
      if requestedFormatId != DP.NO_REQUEST {
        requestedFormatId := DP.NO_REQUEST;
        responses := responses + [r];
      }
    }

    /** xf_cliprdr_stop_incr */
    method StopIncr()
      modifies this`incrStarts, this`incrLength
      ensures Model() == DP.StopIncr(old(Model()))
    {
      incrStarts := false;
      incrLength := 0;
    }

    /** realloc and memcpy: the first `n` bytes of the old buffer, the new bytes and two
        terminators in a buffer of exactly that size. */
    static method Grown(buffer: array?<byte>, n: nat, bytes: seq<byte>) returns (data: array<byte>)
      requires if buffer == null then n == 0 else n <= buffer.Length
      ensures fresh(data) && data.Length == n + |bytes| + 2
      ensures data[..] == (if buffer == null then [] else buffer[..n]) + bytes + [0, 0]
    {
      data := new byte[n + |bytes| + 2](_ => 0);
      for i := 0 to n
        modifies data
        invariant forall k | 0 <= k < i :: data[k] == buffer[k]
      {
        data[i] := buffer[i];
      }
      for i := 0 to |bytes|
        modifies data
        invariant forall k | 0 <= k < n :: data[k] == buffer[k]
        invariant forall k | 0 <= k < i :: data[n + k] == bytes[k]
      {
        data[n + i] := bytes[i];
      }
      data[n + |bytes|] := 0;
      data[n + |bytes| + 1] := 0;
      assert data[n..n + |bytes|] == bytes;
      assert data[..] == data[..n] + data[n..n + |bytes|] + data[n + |bytes|..];
    }

    /** append */
    method Append(bytes: seq<byte>)
      requires if incrData == null then incrLength == 0 else incrLength <= incrData.Length
      modifies this`incrData, this`incrLength
      ensures fresh(incrData) && incrLength + 2 == incrData.Length
      ensures Model() == DP.Append(old(Model()), bytes)
    {
      if incrData != null {
        assert incrData[..][..incrLength] == incrData[..incrLength];
      }
      incrData := Grown(incrData, incrLength, bytes);
      incrLength := incrLength + |bytes|;
    }

    /** xf_cliprdr_process_requested_data */
    method ProcessRequestedData(hasData: bool, size: nat)
      requires incrData != null ==> size <= incrData.Length
      modifies this`incrLength, this`requestedFormatId, this`responses, this`system
      ensures Model() == DP.ProcessRequestedData(cfg, old(Model()), hasData, size)
    {
      if incrStarts && hasData {
        return;
      }
      incrLength := 0;
      var f := AvailableFormatById(requestedFormatId);
      if !hasData || incrData == null || f.None? {
        SendDataResponse(DP.Fail);
        return;
      }
      assert incrData[..][..size] == incrData[..size];
      var src := if f.value.formatToRequest == CF_RAW then CF_RAW else f.value.localFormat;
      var stored := SetData(cfg, src, DP.Sized(incrData[..size]));
      if stored.None? {
        SendDataResponse(DP.Fail);
        return;
      }
      system := stored.value;
      var dst := GetData(cfg, system, requestedFormatId);
      if dst.None? {
        SendDataResponse(DP.Fail);
        return;
      }
      if f.value.formatToRequest != 0 && f.value.formatToRequest == FormatIdOf(cfg, FILE_GROUP_DESCRIPTOR) {
        dst := cfg.serializeFiles(dst.value);
      }
      SendDataResponse(if dst.None? then DP.Fail else DP.Ok(dst.value));
    }

    /** Lines 1177-1218: what a successful property read does to the transfer. */
    method Collect(read: DP.PropertyRead) returns (hasData: bool, len: nat)
      requires DP.Valid(Model())
      modifies this`incrStarts, this`incrData, this`incrLength
      ensures (Model(), hasData, len) == DP.Collect(cfg, old(Model()), read)
      ensures incrData == old(incrData) || fresh(incrData)
      ensures incrData != null ==> len <= incrData.Length
    {
      assert incrData != null ==> |Model().incrData.value| == incrData.Length;
      hasData, len := false, 0;
      if read.totalBytes <= 0 && !incrStarts {
        StopIncr();
      } else if read.propertyType == cfg.incrAtom {
        StopIncr();
        incrStarts := true;
        hasData := true;
      } else {
        len := incrLength;
        if read.totalBytes <= 0 {
          StopIncr();
          hasData := true;
        } else if read.content.Some? {
          Append(read.content.value);
          hasData := true;
          len := incrLength;
        }
      }
    }

    /** xf_cliprdr_get_requested_data */
    method GetRequestedData(target: Atom, read: DP.PropertyRead) returns (handled: bool)
      requires DP.Valid(Model())
      modifies this
      ensures DP.Valid(Model()) && Model() == DP.GetRequestedData(cfg, old(Model()), target, read)
      ensures var f := old(DP.Available(cfg, Model(), requestedFormatId));
              handled <==> f.Some? && f.value.atom == target && read.ok
      ensures incrData == old(incrData) || fresh(incrData)
    {
      var f := AvailableFormatById(requestedFormatId);
      if f.None? || f.value.atom != target {
        SendDataResponse(DP.Fail);
        return false;
      }
      if !read.ok {
        SendDataResponse(DP.Fail);
        return false;
      }
      var hasData, len := Collect(read);
      ProcessRequestedData(hasData, len);
      return true;
    }

    /** The drawable's property changed: xf_cliprdr_process_property_notify, 1843-1851. */
    method ProcessPropertyNotify(read: DP.PropertyRead)
      requires DP.Valid(Model())
      modifies this
      ensures Model() == DP.Step(cfg, old(Model()), DP.PropertyNotify(read))
    {
      if incrStarts {
        var f := AvailableFormatById(requestedFormatId);
        if f.Some? {
          var _ := GetRequestedData(f.value.atom, read);
        }
      }
    }

    /** xf_cliprdr_server_format_data_request */
    method ServerFormatDataRequest(formatId: FormatId, rawAvailable: bool)
      modifies this`requestedFormatId, this`responses
      ensures Model() == DP.ServerDataRequest(cfg, old(Model()), formatId, rawAvailable)
    {
      var f := AvailableFormatById(if rawAvailable then CF_RAW else formatId);
      requestedFormatId := if rawAvailable then CF_RAW else formatId;
      if f.None? {
        SendDataResponse(DP.Fail);
      }
    }

    /** xf_cliprdr_clear_cached_data, the part the provider sees. */
    method ClearCachedData()
      modifies this`incrStarts, this`incrLength, this`available, this`system
      ensures Model() == DP.ClearCachedData(old(Model()))
    {
      system := EMPTY_SYSTEM;
      available := [];
      StopIncr();
    }

    /** xf_cliprdr_send_format_list: an outstanding request is answered first. */
    method SendFormatList(atoms: seq<Atom>, isImage: bool)
      requires DP.Valid(Model())
      modifies this
      ensures Model() == DP.Step(cfg, old(Model()), DP.ClientFormatList(atoms, isImage))
    {
      SendDataResponse(DP.Fail);
      ClearCachedData();
      available := atoms;
      isImageContent := isImage;
    }
  }
}
