/** Completed channel messages go to the handler directly, or through a queue to a
    thread. Fragments, turns of the thread and the order to quit may interleave in any
    way; this module relates what the thread handles to what direct handling would. */
module ChannelThread {
  import opened Bytes
  import opened Reassembly

  type Message = seq<byte>

  datatype Item = Data(message: Message) | Quit

  /** The handler's error code, zero for success; it may depend on what it handled before. */
  type Handler = (seq<Message>, Message) -> nat

  /** `posted` are the messages the queue took. */
  datatype Threaded = Threaded(
    channel: Channel,
    posted: seq<Message>,
    queue: seq<Item>,
    closed: bool,
    handled: seq<Message>,
    stopped: bool)

  const START := Threaded(Channel(None, []), [], [], false, [], false)

  datatype Event = Arrive(fragment: Fragment) | Turn | PostQuit

  /** MessageQueue_Post: a closed queue takes nothing. */
  function Post(t: Threaded, m: Message): Threaded
  {
    if t.closed then t else t.(posted := t.posted + [m], queue := t.queue + [Data(m)])
  }

  /** One turn of channel_client_thread_proc. */
  function ThreadTurn(h: Handler, t: Threaded): Threaded
  {
    if t.stopped || t.queue == [] then t else
    match t.queue[0]
    case Quit => t.(queue := t.queue[1..], stopped := true)
    case Data(m) =>
      t.(queue := t.queue[1..], handled := t.handled + [m], stopped := h(t.handled, m) != 0)
  }

  function Step(h: Handler, t: Threaded, e: Event): Threaded
  {
    match e
    case Arrive(f) =>
      var message := Accept(t.channel.buffer, f).1;
      var t := t.(channel := Reassembly.Step(t.channel, f));
      if message.Some? then Post(t, message.value) else t
    case Turn => ThreadTurn(h, t)
    case PostQuit => if t.closed then t else t.(queue := t.queue + [Quit], closed := true)
  }

  function Run(h: Handler, t: Threaded, es: seq<Event>): Threaded
    decreases |es|
  {
    if es == [] then t else Run(h, Step(h, t, es[0]), es[1..])
  }

  // ----- what a thread should handle -----

  /** Handling in order until the first error, which ends it. */
  function UpToError(h: Handler, done: seq<Message>, ms: seq<Message>): (r: seq<Message>)
    ensures done <= r <= done + ms
    decreases |ms|
  {
    if ms == [] then done
    else if h(done, ms[0]) != 0 then done + [ms[0]]
    else
      assert done + ms == (done + [ms[0]]) + ms[1..];
      UpToError(h, done + [ms[0]], ms[1..])
  }

  predicate Clean(h: Handler, done: seq<Message>, ms: seq<Message>)
    decreases |ms|
  {
    ms == [] || (h(done, ms[0]) == 0 && Clean(h, done + [ms[0]], ms[1..]))
  }

  /** Without an error everything is handled, as it is directly. */
  lemma {:induction false} CleanHandlesAll(h: Handler, done: seq<Message>, ms: seq<Message>)
    requires Clean(h, done, ms)
    ensures UpToError(h, done, ms) == done + ms
    decreases |ms|
  {
    if ms == [] {
      assert done + ms == done;
    } else {
      CleanHandlesAll(h, done + [ms[0]], ms[1..]);
      assert done + ms == (done + [ms[0]]) + ms[1..];
    }
  }

  lemma {:induction false} UpToErrorAppend(h: Handler, done: seq<Message>, ms: seq<Message>, more: seq<Message>)
    ensures UpToError(h, done, ms + more)
         == if Clean(h, done, ms) then UpToError(h, done + ms, more) else UpToError(h, done, ms)
    decreases |ms|
  {
    if ms == [] {
      assert ms + more == more && done + ms == done;
    } else {
      assert (ms + more)[1..] == ms[1..] + more;
      assert done + ms == (done + [ms[0]]) + ms[1..];
      UpToErrorAppend(h, done + [ms[0]], ms[1..], more);
    }
  }

  lemma {:induction false} CleanAppend(h: Handler, done: seq<Message>, ms: seq<Message>, m: Message)
    ensures Clean(h, done, ms + [m]) <==> Clean(h, done, ms) && h(done + ms, m) == 0
    decreases |ms|
  {
    if ms == [] {
      assert ms + [m] == [m] && done + ms == done;
      assert [m][1..] == [];
    } else {
      assert (ms + [m])[1..] == ms[1..] + [m];
      assert done + ms == (done + [ms[0]]) + ms[1..];
      CleanAppend(h, done + [ms[0]], ms[1..], m);
    }
  }

  lemma {:induction false} NotCleanAppend(h: Handler, done: seq<Message>, ms: seq<Message>, more: seq<Message>)
    requires !Clean(h, done, ms)
    ensures !Clean(h, done, ms + more)
    decreases |ms|
  {
    assert (ms + more)[0] == ms[0];
    if h(done, ms[0]) == 0 {
      assert (ms + more)[1..] == ms[1..] + more;
      NotCleanAppend(h, done + [ms[0]], ms[1..], more);
    }
  }

  /** Handling ends with the message that failed, whatever comes after it. */
  lemma StopsAt(h: Handler, handled: seq<Message>, m: Message, rest: seq<Message>)
    requires Clean(h, [], handled) && h(handled, m) != 0
    ensures UpToError(h, [], handled + [m] + rest) == handled + [m] && !Clean(h, [], handled + [m] + rest)
  {
    assert [] + handled == handled;
    CleanAppend(h, [], handled, m);
    UpToErrorAppend(h, [], handled, [m]);
    assert UpToError(h, handled, [m]) == handled + [m];
    UpToErrorAppend(h, [], handled + [m], rest);
    NotCleanAppend(h, [], handled + [m], rest);
  }

  // ----- what every interleaving keeps -----

  /** The messages waiting in a queue; an order to quit can only be last. */
  function Waiting(q: seq<Item>): seq<Message>
  {
    if q == [] || q[0].Quit? then [] else [q[0].message] + Waiting(q[1..])
  }

  predicate QuitLast(q: seq<Item>, closed: bool)
  {
    forall i | 0 <= i < |q| :: q[i].Quit? ==> closed && i == |q| - 1
  }

  lemma {:induction false} WaitingAppend(q: seq<Item>, x: Item)
    requires QuitLast(q, false)
    ensures Waiting(q + [x]) == Waiting(q) + if x.Quit? then [] else [x.message]
    decreases |q|
  {
    if q == [] {
      assert q + [x] == [x] && [x][1..] == [];
    } else {
      assert (q + [x])[1..] == q[1..] + [x];
      WaitingAppend(q[1..], x);
    }
  }

  /** While the thread runs, what it handled and what waits is what was posted; once it has
      stopped, it handled what it should have. */
  ghost predicate InStep(h: Handler, t: Threaded)
  {
    && QuitLast(t.queue, t.closed)
    && (!t.closed ==> t.posted == t.channel.delivered)
    && (!t.stopped ==> Clean(h, [], t.handled) && t.posted == t.handled + Waiting(t.queue))
    && (t.stopped ==> t.handled == UpToError(h, [], t.posted) && (t.closed || !Clean(h, [], t.posted)))
  }

  lemma PostInStep(h: Handler, t: Threaded, m: Message)
    requires QuitLast(t.queue, t.closed)
    requires !t.closed ==> t.posted + [m] == t.channel.delivered
    requires !t.stopped ==> Clean(h, [], t.handled) && t.posted == t.handled + Waiting(t.queue)
    requires t.stopped ==> t.handled == UpToError(h, [], t.posted) && (t.closed || !Clean(h, [], t.posted))
    ensures InStep(h, Post(t, m))
  {
    if !t.closed {
      if t.stopped {
        UpToErrorAppend(h, [], t.posted, [m]);
        NotCleanAppend(h, [], t.posted, [m]);
      } else {
        WaitingAppend(t.queue, Data(m));
        assert t.handled + (Waiting(t.queue) + [m]) == t.handled + Waiting(t.queue) + [m];
      }
    }
  }

  lemma TurnInStep(h: Handler, t: Threaded)
    requires InStep(h, t)
    ensures InStep(h, ThreadTurn(h, t))
  {
    if !t.stopped && t.queue != [] {
      var rest := Waiting(t.queue[1..]);
      match t.queue[0]
      case Quit =>
        assert |t.queue| == 1;
        assert t.handled + [] == t.handled;
        CleanHandlesAll(h, [], t.handled);
        assert [] + t.handled == t.handled;
      case Data(m) =>
        assert t.posted == (t.handled + [m]) + rest;
        CleanAppend(h, [], t.handled, m);
        assert [] + t.handled == t.handled;
        if h(t.handled, m) != 0 {
          StopsAt(h, t.handled, m, rest);
        }
    }
  }

  lemma StepInStep(h: Handler, t: Threaded, e: Event)
    requires InStep(h, t)
    ensures InStep(h, Step(h, t, e))
  {
    match e
    case Arrive(f) =>
      var message := Accept(t.channel.buffer, f).1;
      if message.Some? {
        PostInStep(h, t.(channel := Reassembly.Step(t.channel, f)), message.value);
      }
    case Turn => TurnInStep(h, t);
    case PostQuit =>
      if !t.closed {
        WaitingAppend(t.queue, Quit);
        assert Waiting(t.queue) + [] == Waiting(t.queue);
      }
  }

  lemma {:induction false} RunInStep(h: Handler, t: Threaded, es: seq<Event>)
    requires InStep(h, t)
    ensures InStep(h, Run(h, t, es))
    decreases |es|
  {
    if es != [] {
      StepInStep(h, t, es[0]);
      RunInStep(h, Step(h, t, es[0]), es[1..]);
    }
  }

  /** A thread in step has handled a prefix of what it should, and all of it once it has
      stopped or has nothing to do. */
  lemma InStepHandles(h: Handler, t: Threaded)
    requires InStep(h, t)
    ensures t.handled <= UpToError(h, [], t.posted) <= t.posted
    ensures t.stopped || t.queue == [] ==> t.handled == UpToError(h, [], t.posted)
    ensures Clean(h, [], t.posted) ==> UpToError(h, [], t.posted) == t.posted
  {
    assert [] + t.posted == t.posted;
    if !t.stopped {
      UpToErrorAppend(h, [], t.handled, Waiting(t.queue));
      assert [] + t.handled == t.handled;
      assert t.queue == [] ==> t.handled + [] == t.handled;
    }
    if Clean(h, [], t.posted) {
      CleanHandlesAll(h, [], t.posted);
    }
  }

  // ----- what direct handling would handle -----

  /** The fragments of a run, and its events before the first order to quit. */
  function Fragments(es: seq<Event>): seq<Fragment>
  {
    if es == [] then [] else (if es[0].Arrive? then [es[0].fragment] else []) + Fragments(es[1..])
  }

  function BeforeQuit(es: seq<Event>): seq<Event>
  {
    if es == [] || es[0].PostQuit? then [] else [es[0]] + BeforeQuit(es[1..])
  }

  /** Direct handling hands every completed message over at once. */
  function Direct(es: seq<Event>): seq<Message>
  {
    Feed(START.channel, Fragments(es)).delivered
  }

  lemma FeedEvent(c: Channel, e: Event, es: seq<Event>)
    ensures Feed(c, Fragments([e] + es)) == Feed(if e.Arrive? then Reassembly.Step(c, e.fragment) else c, Fragments(es))
  {
    assert ([e] + es)[1..] == es;
    if e.Arrive? {
      assert Fragments([e] + es)[1..] == Fragments(es);
    } else {
      assert [] + Fragments(es) == Fragments(es);
    }
  }

  /** Thread turns and the order to quit do not disturb reassembly. */
  lemma {:induction false} RunFeeds(h: Handler, t: Threaded, es: seq<Event>)
    ensures Run(h, t, es).channel == Feed(t.channel, Fragments(es))
    decreases |es|
  {
    if es != [] {
      assert es == [es[0]] + es[1..];
      FeedEvent(t.channel, es[0], es[1..]);
      RunFeeds(h, Step(h, t, es[0]), es[1..]);
    }
  }

  lemma {:induction false} ClosedPostsNothing(h: Handler, t: Threaded, es: seq<Event>)
    requires t.closed
    ensures Run(h, t, es).posted == t.posted
    decreases |es|
  {
    if es != [] {
      ClosedPostsNothing(h, Step(h, t, es[0]), es[1..]);
    }
  }

  /** What was posted is what had been delivered when the first order to quit came. */
  lemma {:induction false} PostedBeforeQuit(h: Handler, t: Threaded, es: seq<Event>)
    requires !t.closed && t.posted == t.channel.delivered
    ensures Run(h, t, es).posted == Feed(t.channel, Fragments(BeforeQuit(es))).delivered
    decreases |es|
  {
    if es != [] {
      var t' := Step(h, t, es[0]);
      if es[0].PostQuit? {
        ClosedPostsNothing(h, t', es[1..]);
      } else {
        FeedEvent(t.channel, es[0], BeforeQuit(es[1..]));
        PostedBeforeQuit(h, t', es[1..]);
      }
    }
  }

  lemma {:induction false} FeedGrows(c: Channel, es: seq<Event>)
    ensures Feed(c, Fragments(BeforeQuit(es))).delivered <= Feed(c, Fragments(es)).delivered
    decreases |es|
  {
    if es != [] {
      assert es == [es[0]] + es[1..];
      if es[0].PostQuit? {
        FeedOnlyAdds(c, Fragments(es));
      } else {
        FeedEvent(c, es[0], es[1..]);
        FeedEvent(c, es[0], BeforeQuit(es[1..]));
        FeedGrows(if es[0].Arrive? then Reassembly.Step(c, es[0].fragment) else c, es[1..]);
      }
    }
  }

  /** For every interleaving, with or without an order to quit: the thread is given exactly
      what direct handling would have handled before that order, it has handled a prefix of
      it, and once it has stopped or has nothing to do, all of it up to and including the
      first error. */
  lemma ThreadMatchesDirect(h: Handler, es: seq<Event>)
    ensures var t, direct := Run(h, START, es), Direct(BeforeQuit(es));
            && t.posted == direct
            && direct <= Direct(es) == t.channel.delivered
            && t.handled <= UpToError(h, [], direct) <= direct
            && (t.stopped || t.queue == [] ==> t.handled == UpToError(h, [], direct))
            && (Clean(h, [], direct) ==> UpToError(h, [], direct) == direct)
  {
    var t := Run(h, START, es);
    RunInStep(h, START, es);
    RunFeeds(h, START, es);
    PostedBeforeQuit(h, START, es);
    FeedGrows(START.channel, es);
    InStepHandles(h, t);
  }
}
