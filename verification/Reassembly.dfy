/** Static channel data arrives in fragments flagged FIRST and LAST, section 3.1.5.2.2.1
    of MS-RDPBCGR. This module says what the reassembly buffer becomes and what is
    delivered, for every sequence of fragments. */
module Reassembly {
  import opened Bytes

  datatype Fragment = Fragment(data: seq<byte>, total: nat, first: bool, last: bool, control: bool)

  /** A write stream: what was written and how much fits without growing. */
  datatype Buffer = Buffer(bytes: seq<byte>, capacity: nat)

  datatype Code = CHANNEL_OK | NO_MEMORY | INTERNAL_ERROR

  /** Stream_EnsureCapacity grows to the next multiple of 128, never staying on one. */
  function Grown(capacity: nat, size: nat): nat
  {
    if capacity >= size then capacity else size + 128 - size % 128
  }

  /** Stream_EnsureRemainingCapacity */
  function RoomFor(position: nat, capacity: nat, n: nat): nat
  {
    if position + n > capacity then Grown(capacity, capacity + n) else capacity
  }

  /** Stream_EnsureRemainingCapacity and Stream_Write */
  function Append(b: Buffer, data: seq<byte>): (b': Buffer)
    ensures |b.bytes| <= b.capacity ==> |b'.bytes| <= b'.capacity
  {
    Buffer(b.bytes + data, RoomFor(|b.bytes|, b.capacity, |data|))
  }

  /** A first fragment makes room but keeps whatever an unfinished message left behind. */
  function Opened(b: Option<Buffer>, f: Fragment): Option<Buffer>
  {
    if !f.first then b
    else if b.Some? then Some(b.value.(capacity := Grown(b.value.capacity, f.total)))
    else if f.total == 0 then None
    else Some(Buffer([], f.total))
  }

  /** channel_client_post_message up to the hand-over: the buffer kept, the message
      completed, and the result. */
  function Accept(b: Option<Buffer>, f: Fragment): (Option<Buffer>, Option<seq<byte>>, Code)
  {
    if f.control then (b, None, CHANNEL_OK) else
    var room := Opened(b, f);
    if room.None? then (None, None, NO_MEMORY) else
    var filled := Append(room.value, f.data);
    if !f.last then (Some(filled), None, CHANNEL_OK)
    else if filled.capacity != |filled.bytes| then (Some(filled), None, INTERNAL_ERROR)
    else (None, Some(filled.bytes), CHANNEL_OK)
  }

  /** The reassembly buffer and everything delivered so far. */
  datatype Channel = Channel(buffer: Option<Buffer>, delivered: seq<seq<byte>>)

  function Step(c: Channel, f: Fragment): Channel
  {
    var (buffer, message, _) := Accept(c.buffer, f);
    Channel(buffer, if message.Some? then c.delivered + [message.value] else c.delivered)
  }

  function Feed(c: Channel, fs: seq<Fragment>): Channel
    decreases |fs|
  {
    if fs == [] then c else Feed(Step(c, fs[0]), fs[1..])
  }

  lemma {:induction false} FeedConcat(c: Channel, fs: seq<Fragment>, gs: seq<Fragment>)
    ensures Feed(c, fs + gs) == Feed(Feed(c, fs), gs)
    decreases |fs|
  {
    if fs == [] {
      assert fs + gs == gs;
    } else {
      assert (fs + gs)[1..] == fs[1..] + gs;
      FeedConcat(Step(c, fs[0]), fs[1..], gs);
    }
  }

  lemma {:induction false} FeedOnlyAdds(c: Channel, fs: seq<Fragment>)
    ensures c.delivered <= Feed(c, fs).delivered
    decreases |fs|
  {
    if fs != [] {
      FeedOnlyAdds(Step(c, fs[0]), fs[1..]);
    }
  }

  // ----- suspend and resume change nothing -----

  function DataOnly(fs: seq<Fragment>): seq<Fragment>
  {
    if fs == [] then [] else (if fs[0].control then [] else [fs[0]]) + DataOnly(fs[1..])
  }

  lemma {:induction false} ControlIgnored(c: Channel, fs: seq<Fragment>)
    ensures Feed(c, fs) == Feed(c, DataOnly(fs))
    decreases |fs|
  {
    if fs != [] {
      ControlIgnored(Step(c, fs[0]), fs[1..]);
      if fs[0].control {
        assert [] + DataOnly(fs[1..]) == DataOnly(fs[1..]);
      } else {
        assert DataOnly(fs)[1..] == DataOnly(fs[1..]);
      }
    }
  }

  // ----- one message in fragments -----

  /** The fragments of one message of announced length `total`. */
  function Cut(chunks: seq<seq<byte>>, total: nat): seq<Fragment>
  {
    seq(|chunks|, i requires 0 <= i < |chunks| => Fragment(chunks[i], total, i == 0, i == |chunks| - 1, false))
  }

  function Filled(b: Buffer, chunks: seq<seq<byte>>): Buffer
    decreases |chunks|
  {
    if chunks == [] then b else Filled(Append(b, chunks[0]), chunks[1..])
  }

  lemma {:induction false} FilledBytes(b: Buffer, chunks: seq<seq<byte>>)
    ensures Filled(b, chunks).bytes == b.bytes + Concat(chunks)
    ensures |b.bytes| <= b.capacity ==> |Filled(b, chunks).bytes| <= Filled(b, chunks).capacity
    decreases |chunks|
  {
    if chunks == [] {
      assert b.bytes + [] == b.bytes;
    } else {
      FilledBytes(Append(b, chunks[0]), chunks[1..]);
      assert b.bytes + chunks[0] + Concat(chunks[1..]) == b.bytes + (chunks[0] + Concat(chunks[1..]));
    }
  }

  /** What a channel is after a message filled its buffer. */
  function Finished(full: Buffer, delivered: seq<seq<byte>>): Channel
  {
    if full.capacity == |full.bytes| then Channel(None, delivered + [full.bytes]) else Channel(Some(full), delivered)
  }

  /** Fragments without FIRST: all but the last fill the buffer, the last completes it or not. */
  lemma {:induction false} FeedTail(b: Buffer, delivered: seq<seq<byte>>, fs: seq<Fragment>, chunks: seq<seq<byte>>)
    requires |fs| == |chunks| > 0
    requires forall i | 0 <= i < |fs| ::
               fs[i].data == chunks[i] && !fs[i].first && !fs[i].control && (fs[i].last <==> i == |fs| - 1)
    ensures Feed(Channel(Some(b), delivered), fs) == Finished(Filled(b, chunks), delivered)
    decreases |fs|
  {
    var c, next := Channel(Some(b), delivered), Append(b, chunks[0]);
    if |fs| == 1 {
      assert Filled(next, chunks[1..]) == next;
      assert Feed(Step(c, fs[0]), fs[1..]) == Step(c, fs[0]);
    } else {
      FeedTail(next, delivered, fs[1..], chunks[1..]);
    }
  }

  /** A message cut into fragments, from any state: it is delivered exactly when the
      buffer ends up exactly full, and then behind whatever was left in it. */
  lemma FeedMessage(c: Channel, chunks: seq<seq<byte>>, total: nat)
    requires chunks != [] && (c.buffer.None? ==> total > 0)
    ensures var start := Opened(c.buffer, Cut(chunks, total)[0]);
            && start.Some?
            && Filled(start.value, chunks).bytes
               == (if c.buffer.None? then [] else c.buffer.value.bytes) + Concat(chunks)
            && Feed(c, Cut(chunks, total)) == Finished(Filled(start.value, chunks), c.delivered)
  {
    var fs := Cut(chunks, total);
    var start := Opened(c.buffer, fs[0]).value;
    FilledBytes(start, chunks);
    var next := Append(start, chunks[0]);
    if |chunks| == 1 {
      assert Filled(next, chunks[1..]) == next;
      assert Feed(Step(c, fs[0]), fs[1..]) == Step(c, fs[0]);
    } else {
      assert Step(c, fs[0]) == Channel(Some(next), c.delivered);
      FeedTail(next, c.delivered, fs[1..], chunks[1..]);
    }
  }

  // ----- how full the buffer gets -----

  function Sum(lengths: seq<nat>): nat
  {
    if lengths == [] then 0 else lengths[0] + Sum(lengths[1..])
  }

  /** The capacity after chunks of these lengths were written from `position` on. */
  function Room(position: nat, capacity: nat, lengths: seq<nat>): nat
    decreases |lengths|
  {
    if lengths == [] then capacity
    else Room(position + lengths[0], RoomFor(position, capacity, lengths[0]), lengths[1..])
  }

  /** Writing chunks of these lengths leaves no room over: a condition on numbers alone. */
  predicate ExactFit(position: nat, capacity: nat, lengths: seq<nat>)
  {
    Room(position, capacity, lengths) == position + Sum(lengths)
  }

  function Lengths(chunks: seq<seq<byte>>): (r: seq<nat>)
    ensures |r| == |chunks|
  {
    seq(|chunks|, i requires 0 <= i < |chunks| => |chunks[i]|)
  }

  lemma LengthsTail(chunks: seq<seq<byte>>)
    requires chunks != []
    ensures Lengths(chunks)[0] == |chunks[0]| && Lengths(chunks)[1..] == Lengths(chunks[1..])
  {
  }

  lemma {:induction false} FilledRoom(b: Buffer, chunks: seq<seq<byte>>)
    ensures Filled(b, chunks).capacity == Room(|b.bytes|, b.capacity, Lengths(chunks))
    ensures |Concat(chunks)| == Sum(Lengths(chunks))
    decreases |chunks|
  {
    if chunks != [] {
      LengthsTail(chunks);
      FilledRoom(Append(b, chunks[0]), chunks[1..]);
    }
  }

  lemma {:induction false} RoomKept(position: nat, capacity: nat, lengths: seq<nat>)
    requires position + Sum(lengths) <= capacity
    ensures Room(position, capacity, lengths) == capacity
    decreases |lengths|
  {
    if lengths != [] {
      RoomKept(position + lengths[0], RoomFor(position, capacity, lengths[0]), lengths[1..]);
    }
  }

  lemma {:induction false} RoomRounded(position: nat, capacity: nat, lengths: seq<nat>)
    requires position <= capacity
    requires position + Sum(lengths) > capacity || capacity % 128 == 0
    ensures Room(position, capacity, lengths) % 128 == 0
    decreases |lengths|
  {
    if lengths != [] {
      RoomRounded(position + lengths[0], RoomFor(position, capacity, lengths[0]), lengths[1..]);
    }
  }

  // ----- one message, from any state -----

  function Leftover(c: Channel): Buffer
  {
    if c.buffer.None? then Buffer([], 0) else c.buffer.value
  }

  /** The capacity a message of this announced length starts with. */
  function StartRoom(c: Channel, total: nat): nat
  {
    if c.buffer.None? then total else Grown(c.buffer.value.capacity, total)
  }

  lemma {:induction false} FeedRefused(delivered: seq<seq<byte>>, fs: seq<Fragment>)
    requires forall i | 0 <= i < |fs| :: !fs[i].control && fs[i].total == 0
    ensures Feed(Channel(None, delivered), fs) == Channel(None, delivered)
    decreases |fs|
  {
    if fs != [] {
      FeedRefused(delivered, fs[1..]);
    }
  }

  /** From any state, exactly what becomes of a message: it is delivered, behind whatever an
      earlier one left, if and only if its chunks fill the buffer exactly, and otherwise kept.
      Only a message announced as empty is refused, by an idle channel. */
  lemma MessageFate(c: Channel, chunks: seq<seq<byte>>, total: nat)
    requires chunks != []
    ensures var was, start := Leftover(c).bytes, StartRoom(c, total);
            var after := Feed(c, Cut(chunks, total));
            if c.buffer.None? && total == 0 then after == c
            else if ExactFit(|was|, start, Lengths(chunks)) then
              after == Channel(None, c.delivered + [was + Concat(chunks)])
            else
              after == Channel(Some(Buffer(was + Concat(chunks), Room(|was|, start, Lengths(chunks)))), c.delivered)
  {
    if c.buffer.None? && total == 0 {
      FeedRefused(c.delivered, Cut(chunks, total));
    } else {
      FeedMessage(c, chunks, total);
      FilledRoom(Opened(c.buffer, Cut(chunks, total)[0]).value, chunks);
    }
  }

  /** A message arrives intact exactly when nothing was left over and its lengths fill the
      buffer; an empty leftover with too much room is enough to lose it. */
  lemma ArrivesIff(c: Channel, chunks: seq<seq<byte>>, total: nat)
    requires chunks != []
    ensures Feed(c, Cut(chunks, total)).delivered == c.delivered + [Concat(chunks)]
       <==> && Leftover(c).bytes == [] && (c.buffer.Some? || total > 0)
            && ExactFit(0, StartRoom(c, total), Lengths(chunks))
  {
    MessageFate(c, chunks, total);
    var was := Leftover(c).bytes;
    assert |was + Concat(chunks)| == |was| + |Concat(chunks)|;
    assert (c.delivered + [was + Concat(chunks)])[|c.delivered|] == was + Concat(chunks);
    assert (c.delivered + [Concat(chunks)])[|c.delivered|] == Concat(chunks);
    assert was == [] ==> was + Concat(chunks) == Concat(chunks);
  }

  /** From idle: chunks that sum to the announced length are delivered as one message and the
      channel is idle again; a smaller sum delivers nothing and leaves the buffer; a larger
      one is delivered if and only if the growth of the buffer, in steps of 128, comes out at
      just that sum. */
  lemma FromIdle(chunks: seq<seq<byte>>, total: nat, delivered: seq<seq<byte>>)
    requires chunks != [] && total > 0
    ensures var lengths := Lengths(chunks);
            var c := Feed(Channel(None, delivered), Cut(chunks, total));
            && (ExactFit(0, total, lengths) ==> c == Channel(None, delivered + [Concat(chunks)]))
            && (!ExactFit(0, total, lengths) ==>
                  c == Channel(Some(Buffer(Concat(chunks), Room(0, total, lengths))), delivered))
            && |Concat(chunks)| == Sum(lengths)
            && (Sum(lengths) == total ==> ExactFit(0, total, lengths))
            && (Sum(lengths) < total ==> !ExactFit(0, total, lengths) && Room(0, total, lengths) == total)
            && (Sum(lengths) > total && ExactFit(0, total, lengths) ==> Sum(lengths) % 128 == 0)
  {
    MessageFate(Channel(None, delivered), chunks, total);
    FilledRoom(Buffer([], total), chunks);
    assert [] + Concat(chunks) == Concat(chunks);
    if Sum(Lengths(chunks)) <= total {
      RoomKept(0, total, Lengths(chunks));
    } else {
      RoomRounded(0, total, Lengths(chunks));
    }
  }

  /** An oversized message does get through: 256 bytes announced as one. */
  lemma OversizeDelivered(a: seq<byte>, b: seq<byte>, c: seq<byte>)
    requires |a| == 1 && |b| == 127 && |c| == 128
    ensures Feed(Channel(None, []), Cut([a, b, c], 1)) == Channel(None, [a + b + c])
  {
    FromIdle([a, b, c], 1, []);
    assert Lengths([a, b, c]) == [1, 127, 128];
    assert [1, 127, 128][1..] == [127, 128] && [127, 128][1..] == [128] && [128][1..] == [];
    assert Room(0, 1, [1, 127, 128]) == Room(1, 1, [127, 128]) == Room(128, 256, [128]) == Room(256, 256, []) == 256;
    assert Sum([128]) == 128 && Sum([127, 128]) == 255;
    assert [a, b, c][1..] == [b, c] && [b, c][1..] == [c] && [c][1..] == [];
    assert Concat([c]) == c && Concat([b, c]) == b + c;
    assert a + (b + c) == a + b + c;
    assert [] + [a + b + c] == [a + b + c];
  }

  /** After an unfinished message nothing is delivered intact: a message that does come out
      has the old bytes in front. */
  lemma LeftoversSpoil(b: Buffer, delivered: seq<seq<byte>>, chunks: seq<seq<byte>>, total: nat)
    requires chunks != [] && b.bytes != []
    ensures var c := Feed(Channel(Some(b), delivered), Cut(chunks, total));
            && c.delivered != delivered + [Concat(chunks)]
            && (c.delivered == delivered || c.delivered == delivered + [b.bytes + Concat(chunks)])
  {
    MessageFate(Channel(Some(b), delivered), chunks, total);
    ArrivesIff(Channel(Some(b), delivered), chunks, total);
  }

  /** A leftover without bytes loses a message too: an empty fragment announces 100 bytes,
      and then a message of 50 comes. */
  lemma EmptyLeftoverLoses(m: seq<byte>)
    requires |m| == 50
    ensures Feed(Channel(None, []), Cut([[]], 100) + Cut([m], 50)) == Channel(Some(Buffer(m, 100)), [])
  {
    var empty := Cut([[]], 100);
    FeedConcat(Channel(None, []), empty, Cut([m], 50));
    assert empty == [Fragment([], 100, true, true, false)] && empty[1..] == [];
    assert Step(Channel(None, []), empty[0]) == Channel(Some(Buffer([], 100)), []);
    assert Feed(Channel(None, []), empty) == Channel(Some(Buffer([], 100)), []);
    MessageFate(Channel(Some(Buffer([], 100)), []), [m], 50);
    assert Lengths([m]) == [50] && [50][1..] == [] && [m][1..] == [];
    assert Room(0, 100, [50]) == Room(50, 100, []) == 100;
    assert Concat([m]) == m && [] + m == m;
  }

  // ----- many messages -----

  predicate Proper(messages: seq<seq<seq<byte>>>)
  {
    forall i | 0 <= i < |messages| :: messages[i] != [] && Concat(messages[i]) != []
  }

  function CutAll(messages: seq<seq<seq<byte>>>): seq<Fragment>
  {
    if messages == [] then [] else Cut(messages[0], |Concat(messages[0])|) + CutAll(messages[1..])
  }

  function Joined(messages: seq<seq<seq<byte>>>): seq<seq<byte>>
  {
    if messages == [] then [] else [Concat(messages[0])] + Joined(messages[1..])
  }

  lemma MessageArrives(m: seq<seq<byte>>, rest: seq<Fragment>, delivered: seq<seq<byte>>)
    requires m != [] && Concat(m) != []
    ensures Feed(Channel(None, delivered), Cut(m, |Concat(m)|) + rest)
         == Feed(Channel(None, delivered + [Concat(m)]), rest)
  {
    FromIdle(m, |Concat(m)|, delivered);
    FeedConcat(Channel(None, delivered), Cut(m, |Concat(m)|), rest);
  }

  /** Messages cut and sent one after another all arrive, whole and in order. */
  lemma {:induction false} MessagesArrive(messages: seq<seq<seq<byte>>>, delivered: seq<seq<byte>>)
    requires Proper(messages)
    ensures Feed(Channel(None, delivered), CutAll(messages)) == Channel(None, delivered + Joined(messages))
    decreases |messages|
  {
    if messages == [] {
      assert delivered + [] == delivered;
    } else {
      var m := messages[0];
      MessageArrives(m, CutAll(messages[1..]), delivered);
      MessagesArrive(messages[1..], delivered + [Concat(m)]);
      assert delivered + Joined(messages) == delivered + [Concat(m)] + Joined(messages[1..]);
    }
  }

  /** The first of these messages that leaves the buffer exactly full, by lengths alone. */
  function FirstFit(position: nat, capacity: nat, messages: seq<seq<seq<byte>>>): (r: Option<nat>)
    ensures r.Some? ==> r.value < |messages|
    decreases |messages|
  {
    if messages == [] then None else
    var lengths := Lengths(messages[0]);
    var start := Grown(capacity, Sum(lengths));
    if ExactFit(position, start, lengths) then Some(0) else
    match FirstFit(position + Sum(lengths), Room(position, start, lengths), messages[1..])
    case None => None
    case Some(j) => Some(j + 1)
  }

  lemma FirstOfMany(c: Channel, messages: seq<seq<seq<byte>>>)
    requires messages != [] && messages[0] != []
    ensures Feed(c, CutAll(messages)) == Feed(Feed(c, Cut(messages[0], |Concat(messages[0])|)), CutAll(messages[1..]))
  {
    FeedConcat(c, Cut(messages[0], |Concat(messages[0])|), CutAll(messages[1..]));
  }

  lemma JoinedFirst(messages: seq<seq<seq<byte>>>, j: nat)
    requires j < |messages|
    ensures Concat(Joined(messages[..j + 1])) == Concat(messages[0]) + Concat(Joined(messages[1..][..j]))
    ensures messages[j + 1..] == messages[1..][j..]
    ensures j == 0 ==> Concat(Joined(messages[..1])) == Concat(messages[0])
  {
    var front := messages[..j + 1];
    assert front[1..] == messages[1..][..j];
    assert Joined(front)[1..] == Joined(front[1..]);
    if j == 0 {
      assert Joined([]) == [];
      assert Concat(messages[0]) + [] == Concat(messages[0]);
    }
  }

  lemma NextFate(b: Buffer, delivered: seq<seq<byte>>, messages: seq<seq<seq<byte>>>)
    requires messages != [] && messages[0] != []
    ensures var m, start := messages[0], Grown(b.capacity, |Concat(messages[0])|);
            var room := Room(|b.bytes|, start, Lengths(m));
            && |Concat(m)| == Sum(Lengths(m))
            && Feed(Channel(Some(b), delivered), CutAll(messages))
               == Feed(if ExactFit(|b.bytes|, start, Lengths(m)) then Channel(None, delivered + [b.bytes + Concat(m)])
                       else Channel(Some(Buffer(b.bytes + Concat(m), room)), delivered),
                       CutAll(messages[1..]))
  {
    var c := Channel(Some(b), delivered);
    FirstOfMany(c, messages);
    MessageFate(c, messages[0], |Concat(messages[0])|);
    FilledRoom(b, messages[0]);
  }

  /** What is delivered when message `j` is the first to fill the buffer. */
  function Merged(b: Buffer, delivered: seq<seq<byte>>, messages: seq<seq<seq<byte>>>, j: nat): seq<seq<byte>>
    requires j < |messages|
  {
    delivered + [b.bytes + Concat(Joined(messages[..j + 1]))] + Joined(messages[j + 1..])
  }

  lemma MergedNext(b: Buffer, room: nat, delivered: seq<seq<byte>>, messages: seq<seq<seq<byte>>>, j: nat)
    requires j + 1 < |messages|
    ensures Merged(b, delivered, messages, j + 1)
         == Merged(Buffer(b.bytes + Concat(messages[0]), room), delivered, messages[1..], j)
  {
    JoinedFirst(messages, j + 1);
    Associate(b.bytes, Concat(messages[0]), Concat(Joined(messages[1..][..j + 1])));
  }

  /** From any leftover, exactly what becomes of all the messages that follow: those up to the
      first that fills the buffer come out as one, behind the leftover, and every later one
      arrives whole; if none fills it, nothing arrives. */
  lemma {:induction false} Recovery(b: Buffer, delivered: seq<seq<byte>>, messages: seq<seq<seq<byte>>>)
    requires Proper(messages)
    ensures var c := Feed(Channel(Some(b), delivered), CutAll(messages));
            match FirstFit(|b.bytes|, b.capacity, messages)
            case None => c.delivered == delivered && c.buffer.Some?
            case Some(j) => c == Channel(None, Merged(b, delivered, messages, j))
    decreases |messages|
  {
    if messages != [] {
      var m, rest, lengths := messages[0], messages[1..], Lengths(messages[0]);
      NextFate(b, delivered, messages);
      var start := Grown(b.capacity, Sum(lengths));
      if ExactFit(|b.bytes|, start, lengths) {
        MessagesArrive(rest, delivered + [b.bytes + Concat(m)]);
        JoinedFirst(messages, 0);
      } else {
        var b' := Buffer(b.bytes + Concat(m), Room(|b.bytes|, start, lengths));
        Recovery(b', delivered, rest);
        var r := FirstFit(|b'.bytes|, b'.capacity, rest);
        if r.Some? {
          MergedNext(b, b'.capacity, delivered, messages, r.value);
        }
      }
    }
  }
}
