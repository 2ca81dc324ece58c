/** The handlers of the X11 clipboard that serve local pastes, as they update the
    clipboard object in place. Each is proved to take the broker to the value that
    SelectionBroker gives for its event. */
module XfClipboard {
  import opened Bytes
  import opened ClipboardSystem
  import SB = SelectionBroker

  class Clipboard {
    const cfg: Config
    var serverFormats: seq<ServerFormat>
    var pending: seq<SB.SelectionResponse>
    var queued: seq<SB.SelectionResponse>
    var system: System
    var cachedData: map<nat, seq<byte>>
    var cachedRawData: map<nat, seq<byte>>

    // what the X server and the RDP server have seen
    var received: seq<SB.SelectionRequest>
    var replies: seq<SB.Reply>
    var dropped: seq<SB.SelectionResponse>
    var inFlight: seq<SB.DataRequest>
    var sent: nat

    function CurrentCaches(): SB.Caches
      reads this
    {
      SB.Caches(system, cachedData, cachedRawData)
    }

    function Model(): SB.Broker
      reads this
    {
      SB.Broker(serverFormats, pending, queued, CurrentCaches(), received, replies, dropped, inFlight, sent)
    }

    constructor (cfg: Config)
      ensures this.cfg == cfg && Model() == SB.INITIAL
    {
      this.cfg := cfg;
      serverFormats, pending, queued := [], [], [];
      system, cachedData, cachedRawData := EMPTY_SYSTEM, map[], map[];
      received, replies, dropped, inFlight, sent := [], [], [], [], 0;
    }

    /** xf_cliprdr_provide_selection */
    method ProvideSelection(reply: SB.Reply)
      modifies this`replies
      ensures replies == old(replies) + [reply]
    {
      replies := replies + [reply];
    }

    /** xf_cliprdr_send_data_request */
    method SendDataRequest(f: FormatId)
      modifies this`inFlight, this`sent
      ensures Model() == SB.SendDataRequest(old(Model()), f)
    {
      inFlight := inFlight + [SB.DataRequest(sent, f)];
      sent := sent + 1;
    }

    /** convert_data_from_existing_raw_data */
    method ConvertFromRaw(client: ClientFormat) returns (r: Option<seq<byte>>)
      modifies this`system, this`cachedData
      ensures (CurrentCaches(), r) == SB.ConvertFromRaw(cfg, old(CurrentCaches()), client)
    {
      var (src, nullTerminated) := SrcForRequest(cfg, client);
      var dst := DstForRequest(cfg, client);
      var raw := SB.Lookup(cachedRawData, src);
      if raw.None? || raw.value == [] {
        return None;
      }
      var stored := SetData(cfg, src, raw.value);
      if stored.None? {
        return None;
      }
      system := stored.value;
      var got := GetData(cfg, system, dst);
      if got.None? {
        return None;
      }
      var bytes := Trunc(nullTerminated, got.value);
      cachedData := SB.Insert(cachedData, SB.Slot(dst), bytes);
      return Some(bytes);
    }

    /** Lines 1731-1774: whether some pending request is for another format. */
    method ShouldQueue(f: FormatId) returns (should: bool)
      ensures should <==> !SB.Matches(pending, f)
    {
      should := false;
      for i := 0 to |pending|
        invariant should <==> exists k :: 0 <= k < i && pending[k].requested.formatToRequest != f
      {
        if pending[i].requested.formatToRequest != f {
          should := true;
        }
      }
    }

    method Defer(e: SB.SelectionResponse)
      modifies this`pending, this`queued, this`inFlight, this`sent
      ensures Model() == SB.Defer(old(Model()), e)
    {
      if |pending| > 0 {
        var should := ShouldQueue(e.requested.formatToRequest);
        if should {
          queued := queued + [e];
        } else {
          pending := pending + [e];
        }
      } else {
        pending := pending + [e];
        SendDataRequest(e.requested.formatToRequest);
      }
    }

    /** xf_cliprdr_process_selection_request; `rawId` is the property of the requestor's
        window that names the raw format, if it could be read. */
    method ProcessSelectionRequest(request: SB.SelectionRequest, rawId: Option<FormatId>) returns (handled: bool)
      modifies this
      ensures handled <==> request.owner == cfg.drawable
      ensures Model() == SB.ProcessSelectionRequest(cfg, old(Model()), request, rawId)
    {
      if request.owner != cfg.drawable {
        return false;
      }
      var ticket := |received|;
      received := received + [request];
      var event := SB.EventFor(request, NONE);
      var payload := SB.NoPayload;
      var delay := false;

      if request.target == cfg.timestampAtom {
        event := SB.EventFor(request, request.property);
        payload := if request.property == NONE then SB.NoPayload else SB.OwnershipTime;
      } else if request.target == cfg.targetsAtom {
        event := SB.EventFor(request, request.property);
        payload := if request.property == NONE then SB.NoPayload else SB.TargetList;
      } else {
        var server := ServerFormatByAtom(cfg.clientFormats, serverFormats, request.target);
        var client := ClientFormatByAtom(cfg.clientFormats, request.target);
        if server.Some? && client.Some? && request.requestor != cfg.drawable {
          var formatId := server.value.formatId;
          var raw := false;
          if formatId == CF_RAW && rawId.Some? {
            raw := true;
            formatId := rawId.value;
          }
          var dst := DstForRequest(cfg, client.value);
          var cached := if raw then SB.Lookup(cachedRawData, SB.Slot(formatId))
                        else SB.Lookup(cachedData, SB.Slot(dst));
          if cached.None? && !raw {
            cached := ConvertFromRaw(client.value);
          }
          event := SB.EventFor(request, request.property);
          if cached.Some? {
            payload := SB.ProvideData(request.property, cached.value);
          } else {
            Defer(SB.SelectionResponse(ticket, event, SB.RequestedFormat(formatId, dst, client.value.formatName), raw));
            delay := true;
          }
        }
      }
      if !delay {
        ProvideSelection(SB.Reply(ticket, event, payload));
      }
      return true;
    }

    /** Lines 2330-2338: the server has no data, every pending request is refused. */
    method RefusePending()
      modifies this`pending, this`replies
      ensures Model() == SB.DrainPending(cfg, old(Model()), true, [])
    {
      ghost var all, before := pending, replies;
      ghost var i := 0;
      while |pending| > 0
        invariant 0 <= i <= |all| && pending == all[i..]
        invariant replies == before + SB.Replies(all[..i], seq(i, _ => SB.Refused))
        decreases |pending|
      {
        ProvideSelection(SB.ReplyFor(pending[0], SB.Refused));
        assert all[..i + 1] == all[..i] + [all[i]];
        pending := pending[1..];
        i := i + 1;
      }
      assert all[..i] == all;
    }

    /** One turn of the loop below; the flags say whether the WinPR clipboard holds the
        data and whether a copy of it was kept. */
    method ServeOne(e: SB.SelectionResponse, data: seq<byte>, isSet: bool, rawCached: bool)
      returns (isSet': bool, rawCached': bool, outcome: SB.Outcome)
      modifies this`system, this`cachedData, this`cachedRawData
      ensures (SB.Drain(CurrentCaches(), isSet', rawCached'), outcome)
           == SB.Serve(cfg, data, SB.Drain(old(CurrentCaches()), isSet, rawCached), e)
    {
      isSet', rawCached', outcome := isSet, rawCached, SB.Silent;
      if data == [] {
        return;
      }
      var r := SB.RouteOf(cfg, e);
      if !rawCached && r.src != 0 {
        cachedRawData := SB.Insert(cachedRawData, r.src, data);
        rawCached' := true;
      }
      if !isSet {
        var stored := SetData(cfg, r.src, data);
        if stored.None? {
          return;
        }
        system := stored.value;
        isSet' := true;
      }
      var hit := if e.raw then SB.Lookup(cachedRawData, SB.Slot(r.src)) else SB.Lookup(cachedData, SB.Slot(r.dst));
      var got := if hit.Some? then hit else GetData(cfg, system, r.dst);
      if got.None? {
        outcome := SB.Refused;
        return;
      }
      var bytes := Trunc(r.nullTerminated, got.value);
      outcome := SB.Provided(bytes);
      if hit.None? {
        cachedData := SB.Insert(cachedData, SB.Slot(r.dst), bytes);
      }
    }

    /** Lines 2342-2574: one response answers every pending request. */
    method ServePending(data: seq<byte>)
      modifies this`pending, this`replies, this`system, this`cachedData, this`cachedRawData
      ensures pending == []
      ensures var d := SB.Drain(old(CurrentCaches()), false, false);
              && CurrentCaches() == SB.AfterDrain(cfg, data, d, old(pending)).caches
              && replies == old(replies) + SB.Replies(old(pending), SB.Outcomes(cfg, data, d, old(pending)))
    {
      var isSet, rawCached := false, false;
      ghost var rest := SB.Replies(pending, SB.Outcomes(cfg, data, SB.Drain(CurrentCaches(), false, false), pending));
      ghost var end := SB.AfterDrain(cfg, data, SB.Drain(CurrentCaches(), false, false), pending);
      ghost var goal := replies + rest;
      while |pending| > 0
        invariant goal == replies + rest
        invariant var d := SB.Drain(CurrentCaches(), isSet, rawCached);
                  rest == SB.Replies(pending, SB.Outcomes(cfg, data, d, pending))
        invariant end == SB.AfterDrain(cfg, data, SB.Drain(CurrentCaches(), isSet, rawCached), pending)
        decreases |pending|
      {
        ghost var d := SB.Drain(CurrentCaches(), isSet, rawCached);
        var e := pending[0];
        var outcome;
        isSet, rawCached, outcome := ServeOne(e, data, isSet, rawCached);
        SB.DrainHead(cfg, data, d, pending);
        Associate(replies, [SB.ReplyFor(e, outcome)], rest[1..]);
        ProvideSelection(SB.ReplyFor(e, outcome));
        pending, rest := pending[1..], rest[1..];
      }
    }

    /** Lines 2586-2602: a stable partition of the queue, in place. */
    method MoveGroup(f: FormatId)
      modifies this`pending, this`queued
      ensures pending == old(pending) + SB.WithFormat(old(queued), f)
      ensures queued == SB.WithoutFormat(old(queued), f)
    {
      ghost var all, before := queued, pending;
      ghost var seen, kept, moved := 0, SB.WithoutFormat(all[..0], f), SB.WithFormat(all[..0], f);
      var index := 0;
      while index < |queued|
        invariant seen <= |all| && index == |kept|
        invariant kept == SB.WithoutFormat(all[..seen], f) && queued == kept + all[seen..]
        invariant moved == SB.WithFormat(all[..seen], f) && pending == before + moved
        decreases |queued| - index
      {
        SB.PartitionTurn(all, seen, f);
        var next := queued[index];
        if next.requested.formatToRequest == f {
          queued := queued[..index] + queued[index + 1..];
          pending := pending + [next];
          assert pending == before + (moved + [next]);
          moved := moved + [next];
        } else {
          index := index + 1;
          kept := kept + [next];
        }
        seen := seen + 1;
      }
      assert all[seen..] == [] && all[..seen] == all;
    }

    /** Lines 2579-2606 */
    method PromoteQueued()
      modifies this`pending, this`queued, this`inFlight, this`sent
      ensures Model() == SB.PromoteQueued(old(Model()))
    {
      if |queued| > 0 {
        var f := queued[0].requested.formatToRequest;
        MoveGroup(f);
        SendDataRequest(f);
      }
    }

    /** Lines 2326-2574 */
    method DrainPending(fail: bool, data: seq<byte>)
      modifies this`pending, this`replies, this`system, this`cachedData, this`cachedRawData
      ensures Model() == SB.DrainPending(cfg, old(Model()), fail, data)
    {
      if fail {
        RefusePending();
      }
      ghost var d := SB.Start(Model());
      ServePending(data);
      if fail {
        assert SB.Outcomes(cfg, data, d, []) == [] && SB.AfterDrain(cfg, data, d, []) == d;
      }
    }

    /** xf_cliprdr_server_format_data_response */
    method ServerFormatDataResponse(fail: bool, data: seq<byte>)
      modifies this
      ensures Model() == SB.ProcessDataResponse(cfg, old(Model()), fail, data)
    {
      inFlight := if inFlight == [] then [] else inFlight[1..];
      DrainPending(fail, data);
      PromoteQueued();
    }

    /** xf_cliprdr_clear_cached_data, the part the selection broker sees. */
    method ClearCachedData()
      modifies this`system, this`cachedData, this`cachedRawData
      ensures CurrentCaches() == SB.NO_CACHES
    {
      system, cachedData, cachedRawData := EMPTY_SYSTEM, map[], map[];
    }

    /** xf_cliprdr_server_format_list */
    method ServerFormatList(formats: seq<ServerFormat>)
      modifies this
      ensures Model() == SB.ProcessServerFormatList(old(Model()), formats)
    {
      dropped := dropped + pending + queued;
      pending, queued := [], [];
      ClearCachedData();
      serverFormats := formats + [ServerFormat(CF_RAW, None)];
    }
  }
}
