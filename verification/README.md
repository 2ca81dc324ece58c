# Verified models of the WBFreeRDP client

A Dafny 4.11 model of the parts of the WBFreeRDP client that keep state across events, with
proofs about every run, every input or every byte string. `dafny verify dfyconfig.toml`
checks all of it.

Each stateful part is written twice. A module of datatypes and functions says what every
event does to the state as a value, and holds the theorems about runs. A class beside it
updates the same fields in place, with the loops and branches of the C code, and every one of
its methods is proved to take the state to the value that function gives.

| part | value and theorems | in place |
|---|---|---|
| X11 clipboard, local applications pasting from the server | `SelectionBroker`, `SelectionRuns`, `SelectionWaiting`, `SelectionCache`, `SelectionProvenance`, `SelectionExamples`, `ClipboardSystem` | `XfClipboard`, `ClientTable` |
| X11 clipboard, the server pasting from local applications, INCR transfers | `DataProvider` | `XfDataProvider` |
| resize throttle of the display channel | `ResizeThrottle` | `XfDisp` |
| clipboard format list on the wire, and UTF-8/UTF-16 conversion | `Conversion`, `FormatList`, `FormatListLong`, `FormatListShort`; for the built-in converter `Unicode`, `FormatListBuiltin` | `FormatListCodec` |
| raw format list in an X window property | `RawFormatList` | `RawFormatList` |
| static channel reassembly, message queue and handler thread | `Reassembly`, `ChannelThread` | `MessageQueue`, `ChannelClient` |
| variable-length integers of the input channel | `VarInt` | `TouchStream` |
| window state and fullscreen normalizing of RAIL windows | `RailState` | `XfAppWindow` |
| clipped blit of the Wayland client | `Blit` | `Blit` |
| wheel rotation of the Wayland client | `Wheel` | `WlfInput` |

Which converter between UTF-8 and UTF-16 a build has is decided by the option
WITH_UNICODE_BUILTIN (winpr/CMakeLists.txt:121), which is off unless set; Linux builds then use
ICU (winpr/libwinpr/crt/CMakeLists.txt:36-49). So the format list is modelled with the converter
as a parameter. What holds of ASCII names is proved for every converter that is exact on ASCII,
the exact law for every converter that obeys the laws of `Conversion.Sound`, and only what is
named "built-in" below is about the converter of unicode_builtin.c, which is proved to obey them
(`BuiltinSound`).

## What does not hold, and when exactly it does

Several laws one would expect are false of the code. Each is stated with the condition under
which it holds, and a lemma shows the failure.

- A data response goes to whoever is pending. After a server format list that cut off a
  pending group, it is the response to an older request: it is the awaited one if and only if
  no such request is left over (`ResponseLag`), and `StaleDelivery` is a run in which text is
  delivered as an image.
- Converted data is cached by destination format, whatever it was converted from. UTF8_STRING
  and STRING ask the server for different formats and share the destination text/plain
  (`TextSharesSlot`), so a request for one that waited behind the other is answered with the
  other's text while its own response is ignored (`StaleSlot`). A request receives the
  conversion of the response that comes for it unless some request was served its destination
  since the last format list (`OwnUnlessServed`); then it receives that of an earlier response,
  but always of one received since that list (`Provenance`).
- While one response drains, equal requests fare alike if and only if the first source format
  the clipboard object accepts does not lie between them (`EqualRequestsFareAlike`,
  `UnequalFates`). With a sound format table it never does (`ReachableRequestsFareAlike`), and
  the client's own table is sound (`OwnTableSound`).
- Received data is filed under plain format ids but looked up for raw requests under slot
  numbers, so a raw request is never answered from the cache (`RawRequestsAlwaysPark`).
- A server request that overwrites another (`OverwrittenRequest`), or asks for id 0xFFFFFFFF
  (`VoidRequest`), leaves one request unanswered for good. One response per request holds if
  and only if the server asks only when all its requests were answered and never for that id
  (`OneResponsePerRequest`).
- `timerID` names the live timer until a timer runs out while the display channel is closed,
  and that is the only event after which it does not (`StepKeepsIdExact`, `TimerForgotten`).
- With long names the writer converts as many bytes of a name as the name has UTF-16 units. A
  list of ASCII names survives being written and read in every build (`AsciiRoundTrip`). With
  any sound converter a list survives if and only if the first bytes of each name, as many as it
  has units, convert to the same units as the whole, and those back to the name
  (`LongRoundTripIff`).
- With the built-in converter that means that every name is ASCII (`LongRoundTripIffAscii`);
  other names come back shorter (`OtherNameShortened`), or shift every id behind them
  (`ShiftedList`). With a converter that substitutes U+FFFD for malformed input, U+FFFD itself
  survives (`ReplacementSurvives`), and an accented letter comes back as U+FFFD
  (`CutLetterReplaced`).
- The UTF-8 checker of the built-in converter has no lower limit for the second byte after 0xED
  and 0xF4; the conversion to UTF-16 and back is the identity if and only if no character uses
  that gap (`RoundTrip`, `GapChanged`).
- A message arrives intact if and only if no bytes were left over from an earlier one and its
  chunk lengths fill the buffer exactly (`ArrivesIff`). So one that is longer than announced
  can be delivered (`OversizeDelivered`), a leftover without bytes can lose one
  (`EmptyLeftoverLoses`), and after a leftover messages run together until one of them happens
  to fill the buffer (`LeftoversSpoil`, `Recovery`).
- The message queue keeps its contents when it grows unless it is empty, has slots and is asked
  for more than it has (`EnsureCapacity`); no caller does that.
- The eight-byte writer drops three bits of byte 3 and of every byte between it and the lead
  byte; numbers survive if and only if those bits are zero (`RoundTripIff`, `EightByteLoses`).
  The two-byte signed writer accepts -32768 and writes it as zero (`LeastBecomesZero`).
- Fullscreen normalizing holds back only successful reads of NET_WM_STATE. It is silent if and
  only if every other notification finds the window maximized and not iconic
  (`SilentIffCalm`); `LeakWhileNormalizing` is a run in which the server is told to restore.
- The blit subtracts unsigned numbers: an area whose corner lies beyond the right edge is not
  clipped at all (`WrapsAtTheEdge`). Every copy stays inside both buffers if and only if there
  is no row or the last one fits (`SafeIff`), which well placed areas guarantee
  (`PlacedIsSafe`) and areas beyond the edge of a tight destination do not
  (`BeyondTheEdgeOverruns`).

## Model

| member | source | states |
|---|---|---|
| `SelectionRuns.StepKeepsQueue` | client/X11/xf_cliprdr.c:1724-1778 | every event keeps the two lists well formed: all pending entries share one format, none queued has it, an empty pending list means an empty queue, and a request for the pending format is the newest in flight |
| `SelectionRuns.RunKeepsQueue` | client/X11/xf_cliprdr.c:2577-2606 | the same over every run, and the requests in flight are always the most recent ones in the order they were sent |
| `SelectionRuns.JudgeCopies` | client/X11/xf_cliprdr.c:1601-1624 | whatever is decided about a request, its answer or parked entry carries its own identity, requestor, selection, target and time |
| `SelectionRuns.PartitionTickets` | client/X11/xf_cliprdr.c:2586-2602 | moving one format's group out of the queue loses and duplicates no entry |
| `SelectionRuns.RunKeepsAccount` | client/X11/xf_cliprdr.c:1581-1791 | over every run each request ever received is exactly once among replies, pending, queued and dropped, and every entry and reply still names its request |
| `SelectionRuns.Conservation` | client/X11/xf_cliprdr.c:1581-1791 | from the start, over every run: requests received are replies plus pending plus queued plus dropped, and no request is answered twice |
| `SelectionRuns.AnsweredOnce` | client/X11/xf_cliprdr.c:1782-1788 | two different replies never carry the same request |
| `SelectionWaiting.ArrivalKeepsRank` | client/X11/xf_cliprdr.c:1729-1778 | a request parked later does not change how many responses an earlier one waits for |
| `SelectionWaiting.ResponseLowersRank` | client/X11/xf_cliprdr.c:2326-2606 | every data response answers the parked requests of rank one and lowers every other rank by exactly one |
| `SelectionWaiting.AnsweredAtRank` | client/X11/xf_cliprdr.c:2342-2606 | in any run without a server format list a parked request is answered by exactly the response its rank foretells, neither earlier nor later |
| `SelectionWaiting.WaitBound` | client/X11/xf_cliprdr.c:2579-2606 | a queued request is answered after at most one more response than there are distinct formats in the queue up to its own place |
| `SelectionWaiting.BoundedWaiting` | client/X11/xf_cliprdr.c:1729-1778 | the same for every parked request of every reachable state: one response if pending, at most 1 + d if queued |
| `SelectionWaiting.StepOrphans` | client/X11/xf_cliprdr.c:2141-2142 | requests in flight that nobody waits for come only from a format list cutting off a pending group and go only by a response that finds nothing pending |
| `SelectionWaiting.RunOrphans` | client/X11/xf_cliprdr.c:2122-2230 | the balance of those requests over every run |
| `SelectionWaiting.ResponseLag` | client/X11/xf_cliprdr.c:2326-2340 | in every reachable state with something pending, the next response was asked for as many requests ago as there are orphans, and is the awaited one if and only if there is none |
| `SelectionWaiting.OneInFlight` | client/X11/xf_cliprdr.c:1731-1775 | as long as no format list cut off a pending group, exactly one request is in flight while something is pending and none otherwise |
| `SelectionExamples.StaleDelivery` | client/X11/xf_cliprdr.c:2141-2142 | a four-event run after which text received for an older request is delivered as an image |
| `SelectionExamples.StaleSlot` | client/X11/xf_cliprdr.c:2490-2560 | a run from the start in which a request is answered with the conversion of another format's response, although its own response converts to something else |
| `SelectionExamples.UnequalFates` | client/X11/xf_cliprdr.c:2470-2490 | two equal requests in one drain, the first passed over and the last not, because the source of the one between them is the first accepted |
| `SelectionCache.SilentBeforeFirstUsable` | client/X11/xf_cliprdr.c:2470-2490 | a pending request is passed over without data if and only if it stands before the first one whose source format is registered |
| `SelectionCache.EqualRequestsFareAlike` | client/X11/xf_cliprdr.c:2342-2574 | two non-raw entries of the same name and destination receive identical bytes or are both refused, if and only if the first accepted source does not lie between them |
| `SelectionCache.DrainExact` | client/X11/xf_cliprdr.c:2342-2574 | what every non-raw entry of any drain receives, whatever is pending and cached: nothing before the first accepted source, then what its slot held at first, else the conversion from that one source as the first entry for the slot cut it |
| `SelectionCache.DrainIsDirect` | client/X11/xf_cliprdr.c:2441-2574 | for entries that read one registered source, in any state of the caches: a slot that was filled before is handed out and the response ignored, any other entry receives what converting the response for it alone gives |
| `SelectionCache.RunKeepsRawKeys` | client/X11/xf_cliprdr.c:2445-2467 | over every run received data is filed only under plain, non-zero format ids |
| `SelectionCache.RawRequestsAlwaysPark` | client/X11/xf_cliprdr.c:1645-1675 | in every reachable state a raw request is parked, never answered from the cache |
| `SelectionCache.RoutesAgree` | client/X11/xf_cliprdr.c:1416-1435 | the destination under which a drained entry is cached is the one a new request for its target looks up |
| `SelectionCache.ServedAgainAtOnce` | client/X11/xf_cliprdr.c:1665-1710 | after a response served a pending entry, wherever it stood, a new request for its target is answered at once without a further data request, from the slot; with the same bytes if that entry filled the slot |
| `SelectionCache.ReachableRequestsFareAlike` | client/X11/xf_cliprdr.c:2342-2574 | with a sound format table, in every reachable state equal pending entries fare alike and none is passed over in silence |
| `ClientTable.OwnTableSound` | client/X11/xf_cliprdr.c:2718-2851 | the table xf_clipboard_new builds is sound whichever formats the clipboard object has: unnamed entries ask for registered formats and one atom has one name |
| `ClientTable.TextSharesSlot` | client/X11/xf_cliprdr.c:2722-2730 | two entries of that table ask for different formats and convert to the same one |
| `ClientTable.Build` | client/X11/xf_cliprdr.c:2718-2851 | fills the table in place and never past its 20 entries |
| `ClientTable.AddImages` | client/X11/xf_cliprdr.c:2736-2773 | the loop appends an entry for exactly the image types that have an id, in order |
| `ClientTable.AddFiles` | client/X11/xf_cliprdr.c:2785-2849 | the known file types in order, and a blank entry at the end when the last is not known |
| `ClipboardSystem.ClientFormatByAtom` | client/X11/xf_cliprdr.c:435-449 | the format found has the atom and is in the table; none is found if and only if no format has the atom |
| `ClipboardSystem.ServerFormatIff` | client/X11/xf_cliprdr.c:451-472 | a server format is found for an atom if and only if the server announced one equal to some table entry of that atom, and what is found is such a one |
| `ClipboardSystem.TruncTwice` | client/X11/xf_cliprdr.c:2531-2541 | cutting a terminated string at its terminator a second time changes nothing |
| `SelectionProvenance.DrainKeepsSourced` | client/X11/xf_cliprdr.c:2342-2574 | one response: everything it files in the caches and hands out is a conversion of it or of a response received since the last format list |
| `SelectionProvenance.RunKeepsSourced` | client/X11/xf_cliprdr.c:2342-2574 | over every run all received data kept is from responses since the last format list of either side, and every slot holds a conversion of one of them to its own format |
| `SelectionProvenance.Provenance` | client/X11/xf_cliprdr.c:1626-1791 | every reply of every run was added by some event, and its data is a conversion, to the destination of its target or for raw requests to CF_RAW, of a response received by then since the last format list |
| `SelectionProvenance.FilledIffServed` | client/X11/xf_cliprdr.c:2496-2574 | in every run a slot is filled if and only if a request was served its format since the last format list |
| `SelectionProvenance.OwnUnlessServed` | client/X11/xf_cliprdr.c:2496-2574 | in every run, pending requests that read one registered source receive the conversion of the response that comes unless a request was served their destination since the last format list, and then the conversion of a response received since that list |
| `XfClipboard.Clipboard.constructor` | client/X11/xf_cliprdr.c:2633-2898 | a new clipboard is the initial broker |
| `XfClipboard.Clipboard.ProcessSelectionRequest` | client/X11/xf_cliprdr.c:1581-1791 | handles exactly the requests for our window; replies, parks and caches as the broker does |
| `XfClipboard.Clipboard.ConvertFromRaw` | client/X11/xf_cliprdr.c:1481-1542 | converts received data and caches the result, or leaves everything but the clipboard object |
| `XfClipboard.Clipboard.ShouldQueue` | client/X11/xf_cliprdr.c:1545-1561 | queueing is called for if and only if some pending entry waits for another format |
| `XfClipboard.Clipboard.Defer` | client/X11/xf_cliprdr.c:1729-1778 | the new entry joins the pending group, starts one with a data request, or goes to the end of the queue |
| `XfClipboard.Clipboard.RefusePending` | client/X11/xf_cliprdr.c:2328-2340 | a failed response refuses every pending entry once, in order |
| `XfClipboard.Clipboard.ServeOne` | client/X11/xf_cliprdr.c:2342-2574 | one turn of the drain: what is cached, what the clipboard object then holds, what the entry receives |
| `XfClipboard.Clipboard.ServePending` | client/X11/xf_cliprdr.c:2342-2574 | the drain answers every pending entry in order and leaves none |
| `XfClipboard.Clipboard.MoveGroup` | client/X11/xf_cliprdr.c:2586-2602 | a stable partition in place: the format's entries go to the end of pending in order, the others stay in order |
| `XfClipboard.Clipboard.PromoteQueued` | client/X11/xf_cliprdr.c:2577-2606 | the group of the oldest queued format becomes pending and one request for it is sent |
| `XfClipboard.Clipboard.ServerFormatDataResponse` | client/X11/xf_cliprdr.c:2303-2613 | drains, then promotes, as the broker does |
| `XfClipboard.Clipboard.ServerFormatList` | client/X11/xf_cliprdr.c:2122-2230 | drops every parked entry, empties the caches and appends CF_RAW to the new list |
| `DataProvider.StepResponses` | client/X11/xf_cliprdr.c:499-542 | responses sent and still due grow by one per request, less requests that are overwritten or void |
| `DataProvider.RunResponses` | client/X11/xf_cliprdr.c:2253-2295 | the same balance over every run |
| `DataProvider.OneResponsePerRequest` | client/X11/xf_cliprdr.c:506-541 | no run sends more responses than it received requests, and the difference is the outstanding request if and only if none was lost, which is if and only if the server is polite |
| `DataProvider.PoliteLosesNothing` | client/X11/xf_cliprdr.c:2281-2283 | no request is lost if and only if, counting what the server sent and received, it asks only when every request was answered and never for 0xFFFFFFFF |
| `DataProvider.OverwrittenRequest` | client/X11/xf_cliprdr.c:2281-2283 | a run with two requests, one response and nothing outstanding |
| `DataProvider.VoidRequest` | client/X11/xf_cliprdr.c:506-541 | a request for 0xFFFFFFFF leaves an idle provider as it was |
| `DataProvider.Step` | client/X11/xf_cliprdr.c:1177-1218 | every event keeps: not in a transfer means nothing is buffered, and the buffer has room for its terminators |
| `DataProvider.Run` | client/X11/xf_cliprdr.c:1121-1142 | the same over every run |
| `DataProvider.ChunksCollect` | client/X11/xf_cliprdr.c:1121-1135 | any number of chunks are buffered joined in order, without touching the request |
| `DataProvider.IncrDelivers` | client/X11/xf_cliprdr.c:1177-1218 | announcement, one or more chunks, empty chunk: exactly one response, converted from the chunks joined in order, and the transfer is over |
| `DataProvider.IncrMatchesOneShot` | client/X11/xf_cliprdr.c:1144-1221 | the same data in one property leaves the same state and the same response |
| `DataProvider.EmptyTransfer` | client/X11/xf_cliprdr.c:996-1020 | a transfer without chunks is answered with the conversion of nothing, or refused if no buffer was ever made, while an empty property is always refused |
| `XfDataProvider.Provider.constructor` | client/X11/xf_cliprdr.c:2633-2898 | a new provider is idle |
| `XfDataProvider.Provider.IsAtomAvailable` | client/X11/xf_cliprdr.c:386-408 | found if and only if the atom was announced |
| `XfDataProvider.Provider.AvailableFormatById` | client/X11/xf_cliprdr.c:411-433 | the first available format for an id, images standing in for HTML when only an image is there |
| `XfDataProvider.Provider.SendDataResponse` | client/X11/xf_cliprdr.c:499-542 | answers an outstanding request once and nothing otherwise |
| `XfDataProvider.Provider.StopIncr` | client/X11/xf_cliprdr.c:1137-1142 | ends a transfer and keeps the buffer |
| `XfDataProvider.Provider.Append` | client/X11/xf_cliprdr.c:1121-1135 | a buffer of exactly the counted bytes, the new bytes and two terminators |
| `XfDataProvider.Provider.ProcessRequestedData` | client/X11/xf_cliprdr.c:996-1104 | waits, refuses or converts and answers, as the provider does |
| `XfDataProvider.Provider.Collect` | client/X11/xf_cliprdr.c:1177-1218 | what a property read does to the transfer, and how much of the buffer is then processed |
| `XfDataProvider.Provider.GetRequestedData` | client/X11/xf_cliprdr.c:1144-1221 | every branch of the property read, keeping the buffer invariant; true exactly when the target answers the request and could be read |
| `XfDataProvider.Provider.ProcessPropertyNotify` | client/X11/xf_cliprdr.c:1843-1851 | a changed property matters only within a transfer |
| `XfDataProvider.Provider.ServerFormatDataRequest` | client/X11/xf_cliprdr.c:2253-2295 | the request becomes the outstanding one, refused at once if no format can answer it |
| `XfDataProvider.Provider.ClearCachedData` | client/X11/xf_cliprdr.c:1384-1403 | forgets the announced formats and ends a transfer, but not the request |
| `XfDataProvider.Provider.SendFormatList` | client/X11/xf_cliprdr.c:934-983 | a new local format list first refuses the outstanding request |
| `ResizeThrottle.RunKeepsPace` | client/X11/xf_disp.c:165-227 | over every run with a monotonic clock consecutive layouts are at least 500 ms apart and the date of the last is kept |
| `ResizeThrottle.Throttled` | client/X11/xf_disp.c:186-206 | layouts number i and j of any run are at least j - i times 500 ms apart, whatever fails |
| `ResizeThrottle.StepCovers` | client/X11/xf_disp.c:131-163 | every event keeps: the server has the window's size or some timer is live |
| `ResizeThrottle.RunCovers` | client/X11/xf_disp.c:131-236 | the same over every run in which timers can be added and layouts sent, also after the timer id was zeroed |
| `ResizeThrottle.StepKeepsIdExact` | client/X11/xf_disp.c:147-149 | the timer id names the one live timer after every event except a timer running out while the channel is closed, after which it never does |
| `ResizeThrottle.TimerForgotten` | client/X11/xf_disp.c:147-149 | a run that opens the channel, receives its capabilities, closes it, queues a resize and lets its timer run out ends with a live timer and a timer id of zero |
| `ResizeThrottle.RunKeepsIdExact` | client/X11/xf_disp.c:152-163 | in every run without such an event the id is exact |
| `ResizeThrottle.FiringDelivers` | client/X11/xf_disp.c:131-150 | a timer that runs out 500 ms after the last layout brings the server up to date; an earlier one arms another that will |
| `ResizeThrottle.TwoFiringsDeliver` | client/X11/xf_disp.c:131-150 | two timers running out are always enough |
| `ResizeThrottle.ExactFiringDelivers` | client/X11/xf_disp.c:131-150 | while the id is exact, one is enough |
| `XfDisp.DispContext.constructor` | client/X11/xf_disp.c:334-370 | the initial display |
| `XfDisp.DispContext.TimerAdd` | libfreerdp/core/timer.c:57-92 | a new id and a live timer; no timer for an interval of zero, or if it cannot be stored, which still uses up an id |
| `XfDisp.DispContext.UpdateTimer` | client/X11/xf_disp.c:152-163 | the timer the id names is replaced |
| `XfDisp.DispContext.SettingsChanged` | client/X11/xf_disp.c:75-107 | true if and only if some field differs from what was sent |
| `XfDisp.DispContext.SendResize` | client/X11/xf_disp.c:165-227 | waits, arms a timer, does nothing or sends, as the throttle does |
| `XfDisp.DispContext.QueueResize` | client/X11/xf_disp.c:229-236 | only a new size is passed on |
| `XfDisp.DispContext.OnTimer` | client/X11/xf_disp.c:131-150 | an inactive display keeps its timer; otherwise it sends and the timer ends |
| `Unicode.AsciiWidens` | winpr/libwinpr/crt/unicode_builtin.c:409-562 | ASCII converts unit by unit |
| `Unicode.NonAsciiShrinks` | winpr/libwinpr/crt/unicode_builtin.c:409-562 | any other convertible string takes fewer units than bytes |
| `Unicode.RoundTrip` | winpr/libwinpr/crt/unicode_builtin.c:159-319 | what converts to UTF-16 converts back to the same length, and to itself if and only if no lead 0xED or 0xF4 has a second byte below 0x80 |
| `Unicode.GapChanged` | winpr/libwinpr/crt/unicode_builtin.c:334-405 | the bytes 0xED 0x41 0x80 convert and come back as 0xEC 0x81 0x80 |
| `Unicode.UnitsHoldNoZero` | winpr/libwinpr/crt/unicode_builtin.c:409-562 | a string without zero bytes converts to units without zeros |
| `Unicode.TerminatorWidens` | winpr/libwinpr/crt/unicode_builtin.c:568-608 | a terminator adds one unit and rescues no cut character |
| `Unicode.TerminatorNarrows` | winpr/libwinpr/crt/unicode_builtin.c:610-652 | a terminator adds one byte on the way from UTF-16 to UTF-8 as well |
| `Unicode.SameUnitsAgain` | winpr/libwinpr/crt/unicode_builtin.c:159-319 | what converts to UTF-16 converts back to a string for the same units, in the gap too |
| `Unicode.BuiltinSound` | winpr/libwinpr/crt/unicode_builtin.c:159-562 | the built-in converter obeys all the laws the format list needs |
| `Conversion.SoundLength` | winpr/libwinpr/crt/unicode.c:448-459 | with a sound converter the length computed with the terminator is that of the string alone |
| `Conversion.SoundNarrow` | winpr/libwinpr/crt/unicode.c:383-422 | with a sound converter the units of a string convert back to the same string with or without the terminator, and that string has the same units |
| `FormatListLong.SplitHead` | channels/cliprdr/cliprdr_common.c:507-520 | a record at the head of a payload is split off, whatever follows it |
| `FormatListLong.AsciiRoundTrip` | channels/cliprdr/cliprdr_common.c:265-312 | with long names and any converter exact on ASCII, every list of ASCII names comes back, empty names as absent |
| `FormatListLong.LongRoundTripIff` | channels/cliprdr/cliprdr_common.c:265-312 | with long names and any sound converter, writing and reading returns the list if and only if of each name the first bytes, as many as it has units, convert to the units of the whole and those back to the name |
| `FormatListLong.PaddingIgnored` | channels/cliprdr/cliprdr_common.c:500-562 | up to three pad bytes after a non-empty list of ASCII names change nothing, for any converter exact on ASCII |
| `FormatListLong.OtherNameChanged` | channels/cliprdr/cliprdr_common.c:303-306 | with any sound converter an entry whose name does not survive is read back with another name, if at all, whatever follows it |
| `FormatListLong.OtherNamesNotKept` | channels/cliprdr/cliprdr_common.c:303-306 | with any sound converter a list with such a name anywhere does not come back |
| `FormatListLong.ReplacementSurvives` | channels/cliprdr/cliprdr_common.c:303-306 | with a converter that substitutes U+FFFD, a name of that character survives |
| `FormatListLong.CutLetterReplaced` | channels/cliprdr/cliprdr_common.c:303-306 | with such a converter an accented letter is cut in two and comes back as U+FFFD |
| `FormatListBuiltin.SurvivesIffAscii` | channels/cliprdr/cliprdr_common.c:303-306 | with the built-in converter a name survives if and only if it is ASCII |
| `FormatListBuiltin.LongRoundTripIffAscii` | channels/cliprdr/cliprdr_common.c:265-312 | with long names and the built-in converter, writing and reading returns the list if and only if every name is ASCII |
| `FormatListBuiltin.OtherNameShortened` | channels/cliprdr/cliprdr_common.c:303-306 | with the built-in converter a name that is not ASCII comes back shorter, if it could be written at all |
| `FormatListBuiltin.ShiftedList` | channels/cliprdr/cliprdr_common.c:303-312 | with the built-in converter, a two-entry list whose second id is read back as 0x20000 |
| `FormatListShort.ShortEntry` | channels/cliprdr/cliprdr_common.c:288-311 | with any converter that is lawful on the name, a short record is 36 bytes, can be written exactly when its name is writable, and reads back as what was kept |
| `FormatListShort.ShortRoundTrip` | channels/cliprdr/cliprdr_common.c:427-499 | for every sound converter, every list and both short layouts: writable if and only if every name is, 36 bytes an entry, and the kept names come back, padded or not |
| `FormatListShort.AsciiNamesKept` | channels/cliprdr/cliprdr_common.c:288-311 | with any converter exact on ASCII, ASCII names are always writable and keep their first 31 or 15 characters |
| `FormatListShort.AsciiShortRoundTrip` | channels/cliprdr/cliprdr_common.c:427-499 | with any converter exact on ASCII and both short layouts, every list of ASCII names comes back with each name cut to 31 or 15 characters, padded or not |
| `FormatListShort.AsciiAcceptance` | channels/cliprdr/cliprdr_common.c:427-460 | an ASCII payload is accepted if and only if its length is 0, or at least 36 with a remainder by 36 of at most 3, and gives that many entries |
| `FormatListCodec.Write` | channels/cliprdr/cliprdr_common.c:241-319 | the loop writes every entry, or fails if a name does not convert |
| `FormatListCodec.NextName` | channels/cliprdr/cliprdr_common.c:513-518 | the units up to the terminator and the cursor behind it, or nothing |
| `FormatListCodec.CountEntries` | channels/cliprdr/cliprdr_common.c:507-520 | the counting pass gives the number of records and where they end |
| `FormatListCodec.FillEntries` | channels/cliprdr/cliprdr_common.c:533-561 | the filling pass never meets its index guard, fills exactly the counted entries unless a name does not convert, and stops at the same offset |
| `FormatListCodec.ReadRecords` | channels/cliprdr/cliprdr_common.c:446-498 | the loop over 36-byte records |
| `FormatListCodec.Read` | channels/cliprdr/cliprdr_common.c:401-569 | every layout and every error of the reader |
| `RawFormatList.Serialize` | client/X11/xf_cliprdr.c:544-588 | the count and all entries but the synthetic last one |
| `RawFormatList.NextString` | client/X11/xf_cliprdr.c:634-646 | the bytes up to the terminator and the cursor behind it, or nothing |
| `RawFormatList.Parse` | client/X11/xf_cliprdr.c:590-656 | every entry in order, or nothing if one is cut short or there are more than 255 |
| `RawFormatList.RawListRoundTrip` | client/X11/xf_cliprdr.c:607-650 | parsing what was serialized of a non-empty list returns the same ids and names in order, absent names as empty, if and only if there are at most 255 |
| `Reassembly.ControlIgnored` | channels/client/addin.c:653-656 | suspend and resume fragments anywhere change nothing |
| `Reassembly.FeedMessage` | channels/client/addin.c:658-692 | from any state a fragmented message is delivered if and only if the buffer ends up exactly full, and then behind whatever was left in it |
| `Reassembly.MessageFate` | channels/client/addin.c:641-716 | from any state, exactly what becomes of a message: refused, delivered behind the leftover, or kept, decided by chunk lengths and capacity alone |
| `Reassembly.ArrivesIff` | channels/client/addin.c:658-692 | a message arrives intact if and only if no bytes were left over and its chunk lengths fill the buffer exactly |
| `Reassembly.FromIdle` | channels/client/addin.c:641-716 | from idle: chunks of the announced sum give exactly one message, their concatenation, and an idle channel; a smaller sum gives nothing; a larger one is delivered if and only if the growth in steps of 128 comes out at that sum |
| `Reassembly.OversizeDelivered` | channels/client/addin.c:675-690 | 256 bytes announced as one are delivered |
| `Reassembly.LeftoversSpoil` | channels/client/addin.c:658-667 | after a message that left bytes no message arrives intact |
| `Reassembly.EmptyLeftoverLoses` | channels/client/addin.c:658-692 | from an idle channel, an empty fragment that announces 100 bytes is left over and loses the message of 50 that follows |
| `Reassembly.Recovery` | channels/client/addin.c:641-716 | from any leftover, exactly what becomes of all messages that follow: those up to the first that fills the buffer come out as one, every later one arrives whole, and if none fills it nothing arrives |
| `Reassembly.MessagesArrive` | channels/client/addin.c:641-716 | any number of messages sent one after another arrive whole and in order |
| `ChannelThread.RunInStep` | channels/client/addin.c:519-568 | over every interleaving of fragments, thread turns and the order to quit: handled and waiting messages are the posted ones in order |
| `ChannelThread.PostedBeforeQuit` | channels/client/addin.c:734-743 | the thread is given exactly what had been delivered when the first order to quit came |
| `ChannelThread.ThreadMatchesDirect` | channels/client/addin.c:696-713 | over every interleaving, with or without an order to quit, the thread has handled a prefix of what direct handling handles before that order, and all of it up to the first error once it has stopped or is idle |
| `ChannelThread.CleanHandlesAll` | channels/client/addin.c:550-554 | without an error every message is handled |
| `MessageQueue.ShiftInSteps` | winpr/libwinpr/utils/collections/MessageQueue.c:145-160 | the three block operations for a wrap that does not fit give the shifted slots |
| `MessageQueue.Queue.constructor` | winpr/libwinpr/utils/collections/MessageQueue.c:282-311 | a new queue is empty and open |
| `MessageQueue.Queue.EnsureCapacity` | winpr/libwinpr/utils/collections/MessageQueue.c:104-163 | growing the circular buffer, wrapped or not, keeps its contents in order, and stays sound if and only if it is not an empty queue with slots asked for more than it has |
| `MessageQueue.Queue.Dispatch` | winpr/libwinpr/utils/collections/MessageQueue.c:165-200 | appends to the queue unless it is closed; an order to quit closes it |
| `MessageQueue.Queue.Take` | winpr/libwinpr/utils/collections/MessageQueue.c:247-276 | removes the oldest entry, if there is one |
| `ChannelClient.WriteStream.EnsureCapacity` | winpr/libwinpr/utils/stream.c:44-81 | enough room, in steps of 128, with the written bytes kept |
| `ChannelClient.WriteStream.Write` | winpr/libwinpr/utils/stream.c:83-91 | appends the bytes, growing if needed |
| `ChannelClient.Client.constructor` | channels/client/addin.c:595-639 | a new handler has nothing buffered, queued or handled |
| `ChannelClient.Client.Reassemble` | channels/client/addin.c:653-694 | buffer, completed message and result code of one fragment |
| `ChannelClient.Client.HandOver` | channels/client/addin.c:696-713 | a completed message is handled directly or posted, with the result code of each failure |
| `ChannelClient.Client.PostMessage` | channels/client/addin.c:641-716 | one fragment is one step of reassembly, and in threaded mode one step of the interleaving model |
| `ChannelClient.Client.TakeTurn` | channels/client/addin.c:528-556 | one turn of the thread is one step of the interleaving model |
| `ChannelClient.Client.ThreadProc` | channels/client/addin.c:519-568 | the loop handles everything waiting in order up to an order to quit or the first error |
| `ChannelClient.Client.PostQuit` | channels/client/addin.c:730-737 | the order to quit is posted once |
| `VarInt.EncodesIff` | channels/rdpei/rdpei_common.c:60-611 | a number is written if and only if its magnitude is at most the kind's largest |
| `VarInt.DecodeEncoded` | channels/rdpei/rdpei_common.c:33-611 | a number written with any byte count it fits is read back, but for dropped bits, wherever it stands and whatever follows |
| `VarInt.KeptIff` | channels/rdpei/rdpei_common.c:495-611 | a number loses bits if and only if one of its bytes has a bit the writer masks out |
| `VarInt.KeptWhole` | channels/rdpei/rdpei_common.c:495-534 | only eight-byte numbers above 0x1FFFFFFF can lose bits |
| `VarInt.SelfDelimiting` | channels/rdpei/rdpei_common.c:33-611 | numbers of any kinds written one after another are all read back with nothing left over |
| `VarInt.RoundTripIff` | channels/rdpei/rdpei_common.c:33-611 | the values come back unchanged if and only if none has a dropped bit |
| `VarInt.EightByteLoses` | channels/rdpei/rdpei_common.c:536-548 | 0x1E0000000 is written and comes back as 0x100000000 |
| `VarInt.LeastBecomesZero` | channels/rdpei/rdpei_common.c:125-132 | -32768 has no encoding, and the byte written for it reads as zero |
| `TouchStream.Stream.Read2ByteUnsigned` | channels/rdpei/rdpei_common.c:33-58 | the reference decoder's value and cursor, also of numbers cut short |
| `TouchStream.Stream.Read2ByteSigned` | channels/rdpei/rdpei_common.c:86-115 | the same, signed |
| `TouchStream.Stream.Read4ByteUnsigned` | channels/rdpei/rdpei_common.c:158-208 | the same for up to three further bytes |
| `TouchStream.Stream.Read4ByteSigned` | channels/rdpei/rdpei_common.c:256-311 | the same, signed |
| `TouchStream.Stream.Read8ByteUnsigned` | channels/rdpei/rdpei_common.c:383-493 | the same for up to seven further bytes |
| `TouchStream.Stream.ReadTail` | channels/rdpei/rdpei_common.c:174-204 | bytes placed by shifting are the big-endian number |
| `TouchStream.Stream.ReadLongTail` | channels/rdpei/rdpei_common.c:430-488 | the same for four to seven bytes |
| `TouchStream.Stream.WriteTail` | channels/rdpei/rdpei_common.c:538-604 | the bytes cut out by shifting and masking are the digits, with byte 3 and those above it cut to five bits |
| `TouchStream.Stream.Write2ByteUnsigned` | channels/rdpei/rdpei_common.c:60-84 | the reference encoding or a refusal that writes nothing |
| `TouchStream.Stream.Write2ByteSigned` | channels/rdpei/rdpei_common.c:117-156 | the same, and 0x40 for -32768 |
| `TouchStream.Stream.Write4ByteUnsigned` | channels/rdpei/rdpei_common.c:210-254 | the same for four-byte numbers |
| `TouchStream.Stream.Write4ByteSigned` | channels/rdpei/rdpei_common.c:313-381 | the same, signed |
| `TouchStream.Stream.Write8ByteUnsigned` | channels/rdpei/rdpei_common.c:495-611 | the same for eight-byte numbers |
| `RailState.CommandsFollowState` | client/X11/xf_event.c:1118-1145 | over every run the server's state is the one the last command names, the old one if none was sent, and no command is sent twice in a row |
| `RailState.SilentIffCalm` | client/X11/xf_event.c:1046-1090 | while normalizing, no command is sent if and only if every notification that is not held back finds the window maximized and not iconic |
| `RailState.NormalizingIsSilent` | client/X11/xf_event.c:1010-1090 | from fullscreen seen on a maximized window to maximized without fullscreen, through any successful reads, no command is sent and the server's state stays maximized |
| `RailState.LeakWhileNormalizing` | client/X11/xf_event.c:1094-1116 | a run in which WM_STATE makes the client send a restore while normalizing |
| `RailState.ServerAgrees` | client/X11/xf_event.c:1118-1145 | after every event not held back the server's state is what the flags call for, and it was told exactly when that changed |
| `XfAppWindow.AppWindow.constructor` | client/X11/xf_window.c:1067-1074 | a new window is hidden, not maximized and not normalizing |
| `XfAppWindow.AppWindow.ScanAtoms` | client/X11/xf_event.c:1017-1042 | the loop finds exactly the atoms that are there |
| `XfAppWindow.AppWindow.NetWmStateRead` | client/X11/xf_event.c:1010-1090 | normalizing starts, continues or ends, with the requests to the window manager |
| `XfAppWindow.AppWindow.ReportState` | client/X11/xf_event.c:1118-1145 | the server is told if and only if the state differs |
| `XfAppWindow.AppWindow.PropertyNotify` | client/X11/xf_event.c:990-1151 | one notification is one step of the model |
| `Blit.PixelsCopied` | client/Wayland/wlfreerdp.c:729-746 | for a well placed area every byte of a pixel inside the clipped rectangle is the source's byte of the same pixel, every other pixel is unchanged |
| `Blit.RowsAreBytes` | client/Wayland/wlfreerdp.c:737-743 | the same for every byte of the destination, padding included: the rows do not disturb one another |
| `Blit.SafeIff` | client/Wayland/wlfreerdp.c:729-743 | for any area and images, every copy stays inside both buffers if and only if there is no row or the last one fits |
| `Blit.PlacedIsSafe` | client/Wayland/wlfreerdp.c:729-743 | an area inside the source with its corner in the destination is safe in buffers that hold their images |
| `Blit.WrapsAtTheEdge` | client/Wayland/wlfreerdp.c:731-732 | a corner beyond the right edge is not clipped, and an inverted area is clipped at the edge only |
| `Blit.BeyondTheEdgeOverruns` | client/Wayland/wlfreerdp.c:731-743 | an area with its corner beyond the right edge that reaches the bottom overruns a destination without slack |
| `Blit.CopyRows` | client/Wayland/wlfreerdp.c:729-743 | for every safe area the loop leaves the destination with each row copied in turn |
| `Blit.CopyImage` | client/Wayland/wlfreerdp.c:708-749 | the same, and a missing argument is refused without a change |
| `Wheel.PiecesTurn` | client/Wayland/wlf_input.c:216-233 | sending a split rotation turns its own axis only, never too far, and all the way if and only if every send succeeded |
| `Wheel.RotateTurns` | client/Wayland/wlf_input.c:182-236 | words of magnitude 1 to 255, and the axis turned by the value, mirrored if vertical, if and only if the rotation was handled |
| `Wheel.WheelConserves` | client/Wayland/wlf_input.c:238-307 | a handled frame from a wheel turns the vertical axis by -120 and the horizontal one by 120 times the discrete steps |
| `Wheel.WorkingLinkHandles` | client/Wayland/wlf_input.c:264-304 | when sends succeed, a frame is handled if and only if every event in it has a known axis and a position that scales |
| `Wheel.AinputAgrees` | client/common/client.c:1705-1708 | the advanced-input sender reads the same rotation out of every word |
| `WlfInput.Input.HandleWheel` | client/Wayland/wlf_input.c:182-236 | the splitting loop sends exactly the pieces, up to the first failure |
| `WlfInput.Input.FindSource` | client/Wayland/wlf_input.c:250-260 | the last source event of the frame |
| `WlfInput.Input.HandlePointerFrame` | client/Wayland/wlf_input.c:238-307 | every event is handled as its source says, failures are remembered, and the event list ends empty |

## Left out

- X11, Wayland and RDP calls: what they deliver or answer is a parameter of the event, and what they are given is recorded in the state.
- Allocation failure, and the branches that only handle it.
- Format synthesis of the clipboard object, the file clipboard and its file lists: the conversion is a parameter of the configuration, any function of source format, data and destination format.
- Locks and the delivery of signals between threads: each handler is one step, and the channel thread interleaves with the others between steps.
- The atoms and formats the clipboard announces to the server, its Wayland and macOS counterparts, and the server side of every channel.
- Recovery after a property read of a transfer failed, and after a layout could not be sent: the laws about transfers and sizes that arrive take these to succeed; the throttle and the conservation laws do not.
- Layouts sent outside the throttle when the monitor configuration changes, and what a layout of several monitors holds.
- Lists written with both long and ASCII names: the writer is modelled, no law is claimed.
- RawFormatList.RawListRoundTrip: leaves out the list of no formats, where the result of an allocation of size zero is not fixed.
- The converters of ICU, Android and Apple: only the laws a converter may obey are stated, and no claim is made which of them these obey.
- Lengths, counts and buffer offsets beyond the range of size_t, and a multiplication of wheel steps or a clock sum that overflows; the 32-bit size handed to the clipboard object and the 64-bit clock difference are modelled as they wrap.
- Scaling the image in the blit, and the floating-point scaling of touch pad values: the scaled value is part of the event.
- Messages of other kinds in the message queue, which the channel thread ignores and nobody posts.
- A wheel event on a connection that is not active, which is reported as sent and goes nowhere.
- Show orders of the RAIL server, which set a window's state themselves: the laws about commands are about runs between two of them.
- Window state for a desktop window rather than an application window, and the result code of a system command.
- TouchStream.Stream.Write4ByteSigned: requires a value other than the least 32-bit number, whose negation is undefined in C.
