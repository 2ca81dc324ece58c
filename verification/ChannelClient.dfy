/** The channel client in place: its reassembly stream, its message queue and the thread
    that empties it. */
module ChannelClient {
  import opened Bytes
  import opened Reassembly
  import opened ChannelThread
  import opened MessageQueue

  class WriteStream {
    var buffer: array<byte>
    var position: nat

    ghost predicate Valid()
      reads this
    {
      position <= buffer.Length
    }

    ghost function Model(): Buffer
      requires Valid()
      reads this, buffer
    {
      Buffer(buffer[..position], buffer.Length)
    }

    /** Stream_New, for a size other than zero */
    constructor (size: nat)
      ensures Valid() && fresh(buffer) && Model() == Buffer([], size)
    {
      buffer := new byte[size];
      position := 0;
    }

    method EnsureCapacity(size: nat)
      requires Valid()
      modifies this`buffer
      ensures Valid() && (buffer == old(buffer) || fresh(buffer))
      ensures Model() == old(Model()).(capacity := Grown(old(buffer.Length), size)) && buffer.Length >= size
    {
      if buffer.Length < size {
        var grown := new byte[Grown(buffer.Length, size)];
        forall k | 0 <= k < position {
          grown[k] := buffer[k];
        }
        buffer := grown;
      }
    }

    /** Stream_EnsureRemainingCapacity and Stream_Write */
    method Write(data: seq<byte>)
      requires Valid()
      modifies this, buffer
      ensures Valid() && (buffer == old(buffer) || fresh(buffer))
      ensures Model() == Append(old(Model()), data)
    {
      if position + |data| > buffer.Length {
        EnsureCapacity(buffer.Length + |data|);
      }
      ghost var was := buffer[..position];
      forall k | position <= k < position + |data| {
        buffer[k] := data[k - position];
      }
      position := position + |data|;
      assert buffer[..position] == was + data;
    }
  }

  class Client {
    const handler: Handler
    const threads: bool
    const queue: Queue
    var dataIn: WriteStream?
    var handled: seq<Message>
    var stopped: bool
    ghost var delivered: seq<Message>
    ghost var posted: seq<Message>

    ghost function Footprint(): set<object?>
      reads this, queue, dataIn
    {
      var stream: set<object?> := if dataIn == null then {} else {dataIn, dataIn.buffer};
      {this, queue, queue.slots} + stream
    }

    ghost predicate Valid()
      reads this, queue, dataIn
    {
      queue.Valid() && (dataIn != null ==> dataIn.Valid())
    }

    ghost function Reassembling(): Option<Buffer>
      requires Valid()
      reads this, queue, dataIn, Footprint()
    {
      if dataIn == null then None else Some(dataIn.Model())
    }

    ghost function Model(): Threaded
      requires Valid()
      reads this, queue, dataIn, Footprint()
    {
      Threaded(Channel(Reassembling(), delivered), posted, queue.Contents(), queue.closed, handled, stopped)
    }

    /** channel_client_create_handler */
    constructor (handler: Handler, threads: bool)
      ensures Valid() && fresh(Footprint()) && Model() == START
      ensures this.handler == handler && this.threads == threads
    {
      this.handler, this.threads := handler, threads;
      queue := new Queue();
      dataIn, handled, stopped, delivered, posted := null, [], false, [], [];
    }

    /** The part of channel_client_post_message that fills the stream. */
    method Reassemble(f: Fragment) returns (message: Option<Message>, code: Code)
      requires Valid()
      modifies this`dataIn, dataIn, if dataIn == null then {} else {dataIn.buffer}
      ensures Valid() && fresh(Footprint() - old(Footprint()))
      ensures (Reassembling(), message, code) == Accept(old(Reassembling()), f)
    {
      if f.control {
        return None, CHANNEL_OK;
      }
      if f.first {
        if dataIn != null {
          dataIn.EnsureCapacity(f.total);
        } else if f.total != 0 {
          dataIn := new WriteStream(f.total);
        }
      }
      if dataIn == null {
        return None, NO_MEMORY;
      }
      dataIn.Write(f.data);
      if f.last {
        if dataIn.buffer.Length != dataIn.position {
          return None, INTERNAL_ERROR;
        }
        message := Some(dataIn.buffer[..dataIn.position]);
        dataIn := null;
        return message, CHANNEL_OK;
      }
      return None, CHANNEL_OK;
    }

    /** The part of channel_client_post_message that passes a complete message on. */
    method HandOver(m: Message) returns (code: Code)
      requires Valid()
      modifies this`handled, this`delivered, this`posted, queue, queue.slots
      ensures Valid() && fresh(Footprint() - old(Footprint()))
      ensures var seen := old(Model()).(channel := Channel(old(Reassembling()), old(delivered) + [m]));
              Model() == if threads then Post(seen, m) else seen.(handled := old(handled) + [m])
      ensures var failed := if threads then old(queue.closed) else handler(old(handled), m) != 0;
              code == if failed then INTERNAL_ERROR else CHANNEL_OK
    {
      delivered := delivered + [m];
      if threads {
        var ok := queue.Dispatch(Data(m));
        if !ok {
          return INTERNAL_ERROR;
        }
        posted := posted + [m];
      } else {
        var error := handler(handled, m);
        handled := handled + [m];
        if error != 0 {
          return INTERNAL_ERROR;
        }
      }
      return CHANNEL_OK;
    }

    /** channel_client_post_message */
    method PostMessage(f: Fragment) returns (code: Code)
      requires Valid()
      modifies Footprint()
      ensures Valid() && fresh(Footprint() - old(Footprint()))
      ensures threads ==> Model() == ChannelThread.Step(handler, old(Model()), Arrive(f))
      ensures Model().channel == Reassembly.Step(old(Model()).channel, f)
      ensures var (_, message, result) := Accept(old(Reassembling()), f);
              if message.None? then code == result && handled == old(handled)
              else if threads then code == if old(queue.closed) then INTERNAL_ERROR else CHANNEL_OK
              else
                && handled == old(handled) + [message.value]
                && code == if handler(old(handled), message.value) != 0 then INTERNAL_ERROR else CHANNEL_OK
    {
      var message;
      message, code := Reassemble(f);
      if message.Some? {
        code := HandOver(message.value);
      }
    }

    /** One turn of channel_client_thread_proc; nothing waiting is where it blocks. */
    method TakeTurn()
      requires Valid() && !stopped
      modifies this`handled, this`stopped, queue`head, queue`size, queue.slots
      ensures Valid() && Model() == ThreadTurn(handler, old(Model()))
    {
      var item := queue.Take();
      match item
      case None =>
      case Some(Quit) => stopped := true;
      case Some(Data(m)) =>
        var error := handler(handled, m);
        handled := handled + [m];
        if error != 0 {
          stopped := true;
        }
    }

    /** channel_client_thread_proc until it blocks or ends: it handles what waits in order,
        up to an order to quit or the first error. */
    method ThreadProc()
      requires Valid() && !stopped
      modifies this`handled, this`stopped, queue`head, queue`size, queue.slots
      ensures Valid() && queue.closed == old(queue.closed)
      ensures handled == UpToError(handler, old(handled), Waiting(old(queue.Contents())))
      ensures stopped || queue.Contents() == []
    {
      while !stopped && queue.size > 0
        invariant Valid() && queue.closed == old(queue.closed)
        invariant UpToError(handler, old(handled), Waiting(old(queue.Contents())))
               == if stopped then handled else UpToError(handler, handled, Waiting(queue.Contents()))
        decreases queue.size
      {
        TakeTurn();
      }
    }

    /** channel_client_quit_handler before the thread is waited for */
    method PostQuit() returns (ok: bool)
      requires Valid() && threads
      modifies queue, queue.slots
      ensures Valid() && fresh(Footprint() - old(Footprint()))
      ensures ok == !old(queue.closed) && Model() == ChannelThread.Step(handler, old(Model()), ChannelThread.PostQuit)
    {
      ok := queue.Dispatch(Quit);
    }
  }
}
