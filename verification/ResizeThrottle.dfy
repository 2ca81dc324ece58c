/** Window resizes sent to the server at most twice a second. The model holds the
    display state, the timers that are live, and every layout that was attempted. */
module ResizeThrottle {

  const MIN_DELAY := 500_000_000
  const CLOCK_LIMIT := 0x1_0000_0000_0000_0000

  datatype Size = Size(width: nat, height: nat)

  datatype Settings = Settings(orientation: nat, desktopScale: nat, deviceScale: nat, fullscreen: bool)

  datatype Timer = Timer(interval: nat, due: nat)

  datatype Attempt = Attempt(time: nat, size: Size)

  /** `now` is the last clock reading, `timers` the entries of the timer service with a
      non-zero interval, `maxId` the last id it gave out. */
  datatype Display = Display(
    target: Size,
    lastSent: Size,
    settings: Settings,
    lastSettings: Settings,
    lastSentDate: nat,
    activated: bool,
    channelOpen: bool,
    timerId: nat,
    timers: map<nat, Timer>,
    maxId: nat,
    attempts: seq<Attempt>,
    now: nat)

  /** The readings a handler may take, in order: the age check, the date of a send, the
      start of a timer. */
  datatype Clock = Clock(check: nat, stamp: nat, arm: nat)

  /** Whether adding a timer and sending a layout succeed. */
  datatype Luck = Luck(add: bool, send: bool)

  datatype Event =
    | Queue(size: Size, clock: Clock, luck: Luck)
    | Nudge(allowed: bool, clock: Clock, luck: Luck)
    | Fire(id: nat, clock: Clock, luck: Luck)
    | Configure(settings: Settings)
    | Caps
    | Open
    | Close

  function Initial(size: Size, settings: Settings): Display
  {
    Display(size, size, settings, Settings(0, 0, 0, false), 0, false, false, 0, map[], 0, [], 0)
  }

  // ----- the handlers -----

  /** Unsigned 64-bit subtraction. */
  function Age(now: nat, date: nat): nat
  {
    (now - date) % CLOCK_LIMIT
  }

  /** xf_disp_settings_changed */
  predicate SettingsChanged(d: Display)
  {
    d.lastSent != d.target || d.lastSettings != d.settings
  }

  /** update_timer over freerdp_timer_remove and freerdp_timer_add; an id is used up even
      if the timer cannot be stored. */
  function UpdateTimer(d: Display, interval: nat, c: Clock, l: Luck): (Display, bool)
  {
    var live := if d.timerId != 0 then d.timers - {d.timerId} else d.timers;
    if interval == 0 then (d.(timers := live, timerId := 0), false)
    else if !l.add then (d.(timers := live, timerId := 0, maxId := d.maxId + 1), false)
    else (d.(timers := live[d.maxId + 1 := Timer(interval, c.arm + interval)],
             timerId := d.maxId + 1, maxId := d.maxId + 1), true)
  }

  /** xf_disp_sendResize */
  function SendResize(d: Display, fromTimer: bool, c: Clock, l: Luck): (Display, bool)
  {
    if d.timerId != 0 && !fromTimer then (d, true)
    else if !d.activated || !d.channelOpen then UpdateTimer(d, MIN_DELAY, c, l)
    else if Age(c.check, d.lastSentDate) < MIN_DELAY then
      UpdateTimer(d, MIN_DELAY - Age(c.check, d.lastSentDate), c, l)
    else if !SettingsChanged(d) then (d, true)
    else
      var d := d.(lastSentDate := c.stamp, attempts := d.attempts + [Attempt(c.stamp, d.target)]);
      if !l.send then (d, false)
      else (d.(lastSent := d.target, lastSettings := d.settings), true)
  }

  /** xf_disp_queueResize */
  function QueueResize(d: Display, size: Size, c: Clock, l: Luck): (Display, bool)
  {
    if d.target == size then (d, true) else SendResize(d.(target := size), false, c, l)
  }

  /** runTimerEvent over xf_disp_OnTimer: a result of zero ends the timer. */
  function OnTimer(d: Display, id: nat, c: Clock, l: Luck): Display
    requires id in d.timers
  {
    if !d.activated then
      var interval := d.timers[id].interval;
      d.(timers := d.timers[id := Timer(interval, c.arm + interval)])
    else
      var d := SendResize(d, true, c, l).0;
      d.(timerId := 0, timers := d.timers - {id})
  }

  predicate IsDue(d: Display, id: nat, c: Clock)
  {
    id in d.timers && d.timers[id].due <= c.check
  }

  function Handle(d: Display, e: Event): Display
  {
    match e
    case Queue(size, c, l) => QueueResize(d, size, c, l).0.(now := c.arm)
    case Nudge(allowed, c, l) => (if d.activated && allowed then SendResize(d, false, c, l).0 else d).(now := c.arm)
    case Fire(id, c, l) => (if IsDue(d, id, c) then OnTimer(d, id, c, l) else d).(now := c.arm)
    case Configure(settings) => d.(settings := settings)
    case Caps => d.(activated := true)
    case Open => d.(channelOpen := true)
    case Close => d.(channelOpen := false)
  }

  function Run(d: Display, es: seq<Event>): Display
    decreases |es|
  {
    if es == [] then d else Run(Handle(d, es[0]), es[1..])
  }

  /** The clock never runs back. */
  predicate Monotonic(d: Display, e: Event)
  {
    (e.Queue? || e.Nudge? || e.Fire?) ==> d.now <= e.clock.check <= e.clock.stamp <= e.clock.arm < CLOCK_LIMIT
  }

  ghost predicate MonotonicRun(d: Display, es: seq<Event>)
    decreases |es|
  {
    es == [] || (Monotonic(d, es[0]) && MonotonicRun(Handle(d, es[0]), es[1..]))
  }

  // ----- layouts are far apart -----

  ghost predicate Paced(d: Display)
  {
    && d.lastSentDate <= d.now < CLOCK_LIMIT
    && (d.attempts != [] ==> d.attempts[|d.attempts| - 1].time == d.lastSentDate)
    && forall i | 0 < i < |d.attempts| :: d.attempts[i].time - d.attempts[i - 1].time >= MIN_DELAY
  }

  lemma SendResizeKeepsPace(d: Display, fromTimer: bool, c: Clock, l: Luck)
    requires Paced(d) && d.now <= c.check <= c.stamp <= c.arm < CLOCK_LIMIT
    ensures Paced(SendResize(d, fromTimer, c, l).0.(now := c.arm))
  {
  }

  lemma StepKeepsPace(d: Display, e: Event)
    requires Paced(d) && Monotonic(d, e)
    ensures Paced(Handle(d, e))
  {
    match e
    case Queue(size, c, l) => SendResizeKeepsPace(d.(target := size), false, c, l);
    case Nudge(allowed, c, l) => SendResizeKeepsPace(d, false, c, l);
    case Fire(id, c, l) => SendResizeKeepsPace(d, true, c, l);
    case _ =>
  }

  lemma {:induction false} RunKeepsPace(d: Display, es: seq<Event>)
    requires Paced(d) && MonotonicRun(d, es)
    ensures Paced(Run(d, es))
    decreases |es|
  {
    if es != [] {
      StepKeepsPace(d, es[0]);
      RunKeepsPace(Handle(d, es[0]), es[1..]);
    }
  }

  lemma {:induction false} Spread(d: Display, i: nat, j: nat)
    requires Paced(d) && i <= j < |d.attempts|
    ensures d.attempts[j].time - d.attempts[i].time >= (j - i) * MIN_DELAY
    decreases j - i
  {
    if i < j {
      Spread(d, i, j - 1);
    }
  }

  /** In every run with a monotonic clock, whatever fails, the layouts attempted are at
      least half a second apart, each further one by as much again. */
  lemma Throttled(size: Size, settings: Settings, es: seq<Event>, i: nat, j: nat)
    requires MonotonicRun(Initial(size, settings), es)
    requires i <= j < |Run(Initial(size, settings), es).attempts|
    ensures var a := Run(Initial(size, settings), es).attempts;
            a[j].time - a[i].time >= (j - i) * MIN_DELAY
  {
    RunKeepsPace(Initial(size, settings), es);
    Spread(Run(Initial(size, settings), es), i, j);
  }

  // ----- no resize is forgotten -----

  /** Either the server has the size or a timer will see to it. */
  ghost predicate Covered(d: Display)
  {
    && (d.target == d.lastSent || d.timers != map[])
    && (d.timerId != 0 ==> d.timerId in d.timers)
    && forall id | id in d.timers :: 0 < id <= d.maxId
  }

  predicate Lucky(e: Event)
  {
    (e.Queue? || e.Nudge? || e.Fire?) ==> e.luck == Luck(true, true)
  }

  lemma SendResizeCovers(d: Display, fromTimer: bool, c: Clock)
    requires d.timerId != 0 ==> d.timerId in d.timers
    requires forall id | id in d.timers :: 0 < id <= d.maxId
    ensures var d' := SendResize(d, fromTimer, c, Luck(true, true)).0;
            && Covered(d') && d'.target == d.target && d.maxId <= d'.maxId
            && (fromTimer && d'.target != d'.lastSent ==> d'.maxId == d.maxId + 1 && d'.maxId in d'.timers)
  {
    var d' := SendResize(d, fromTimer, c, Luck(true, true)).0;
    if d.timerId != 0 && !fromTimer {
      assert d.timerId in d'.timers;
    } else if d'.maxId != d.maxId {
      assert d'.maxId in d'.timers;
    }
  }

  lemma StepCovers(d: Display, e: Event)
    requires Covered(d) && Lucky(e)
    ensures Covered(Handle(d, e))
  {
    match e
    case Queue(size, c, l) => SendResizeCovers(d.(target := size), false, c);
    case Nudge(allowed, c, l) => SendResizeCovers(d, false, c);
    case Fire(id, c, l) =>
      SendResizeCovers(d, true, c);
      if IsDue(d, id, c) {
        if d.activated {
          var d1 := SendResize(d, true, c, l).0;
          var d' := OnTimer(d, id, c, l);
          if d1.target != d1.lastSent {
            assert d1.maxId in d'.timers;
          }
        } else {
          assert id in Handle(d, e).timers;
        }
      }
    case _ =>
  }

  /** Over every run in which timers can be added and layouts sent, the server has the
      window's size or some timer is live, whatever the timer id says. */
  lemma {:induction false} RunCovers(d: Display, es: seq<Event>)
    requires Covered(d) && forall e | e in es :: Lucky(e)
    ensures Covered(Run(d, es))
    decreases |es|
  {
    if es != [] {
      StepCovers(d, es[0]);
      RunCovers(Handle(d, es[0]), es[1..]);
    }
  }

  // ----- when the timer id can be trusted -----

  /** The id names the one live timer, which runs out no earlier than the next layout
      may be sent. */
  ghost predicate IdExact(d: Display)
  {
    && d.timers.Keys == (if d.timerId == 0 then {} else {d.timerId})
    && (forall id | id in d.timers :: 0 < id <= d.maxId)
    && (forall id | id in d.timers :: d.timers[id].due >= d.lastSentDate + MIN_DELAY)
  }

  /** A timer runs out after the channel was closed under an activated display. */
  predicate FiresWhileClosed(d: Display, e: Event)
  {
    e.Fire? && IsDue(d, e.id, e.clock) && d.activated && !d.channelOpen
  }

  lemma UpdateTimerExact(d: Display, interval: nat, c: Clock)
    requires d.timers.Keys == (if d.timerId == 0 then {} else {d.timerId}) && interval > 0
    requires c.arm + interval >= d.lastSentDate + MIN_DELAY
    ensures IdExact(UpdateTimer(d, interval, c, Luck(true, true)).0)
  {
    var d' := UpdateTimer(d, interval, c, Luck(true, true)).0;
    assert d.timers.Keys - {d.timerId} == {};
    assert d'.timers.Keys == {d.maxId + 1};
  }

  lemma SendResizeExact(d: Display, c: Clock)
    requires IdExact(d) && d.lastSentDate <= d.now <= c.check <= c.stamp <= c.arm < CLOCK_LIMIT
    ensures IdExact(SendResize(d, false, c, Luck(true, true)).0)
  {
    if d.timerId == 0 {
      if !d.activated || !d.channelOpen {
        UpdateTimerExact(d, MIN_DELAY, c);
      } else if Age(c.check, d.lastSentDate) < MIN_DELAY {
        UpdateTimerExact(d, MIN_DELAY - Age(c.check, d.lastSentDate), c);
      }
    }
  }

  /** The id goes wrong in one way only: re-arming from inside the timer, which needs a
      timer to fire while the channel is closed. */
  lemma StepKeepsIdExact(d: Display, e: Event)
    requires IdExact(d) && Paced(d) && Monotonic(d, e) && Lucky(e)
    ensures !FiresWhileClosed(d, e) ==> IdExact(Handle(d, e))
    ensures FiresWhileClosed(d, e) ==> Handle(d, e).timerId == 0 && Handle(d, e).timers.Keys == {d.maxId + 1}
  {
    match e
    case Queue(size, c, l) => SendResizeExact(d.(target := size), c);
    case Nudge(allowed, c, l) => SendResizeExact(d, c);
    case Fire(id, c, l) =>
      if IsDue(d, id, c) {
        assert id == d.timerId;
        if !d.activated {
          assert Handle(d, e).timers.Keys == {id};
        } else if d.channelOpen {
          assert Age(c.check, d.lastSentDate) >= MIN_DELAY;
          assert d.timers.Keys - {id} == {};
        } else {
          assert d.timers.Keys - {id} == {};
          assert (UpdateTimer(d, MIN_DELAY, c, l).0.timers - {id}).Keys == {d.maxId + 1};
        }
      }
    case _ =>
  }

  lemma RunFirst(d: Display, e: Event, es: seq<Event>)
    requires Monotonic(d, e) && MonotonicRun(Handle(d, e), es)
    ensures Run(d, [e] + es) == Run(Handle(d, e), es) && MonotonicRun(d, [e] + es)
  {
    assert ([e] + es)[1..] == es;
  }

  /** A run to such a state, the channel opened, its capabilities received and closed again:
      a timer is live, and the id says there is none. */
  lemma TimerForgotten(size: Size, wanted: Size, settings: Settings)
    requires size != wanted
    ensures var c1, c2 := Clock(0, 0, 0), Clock(MIN_DELAY, MIN_DELAY, MIN_DELAY);
            var es := [Open, Caps, Close, Queue(wanted, c1, Luck(true, true)), Fire(1, c2, Luck(true, true))];
            var d := Run(Initial(size, settings), es);
            && MonotonicRun(Initial(size, settings), es)
            && d.timerId == 0 && d.timers == map[2 := Timer(MIN_DELAY, 2 * MIN_DELAY)] && d.target != d.lastSent
  {
    var c1, c2, luck := Clock(0, 0, 0), Clock(MIN_DELAY, MIN_DELAY, MIN_DELAY), Luck(true, true);
    var queue, fire := Queue(wanted, c1, luck), Fire(1, c2, luck);
    var d0 := Initial(size, settings);
    var d1 := Handle(d0, Open);
    var d2 := Handle(d1, Caps);
    var d3 := Handle(d2, Close);
    var d4 := Handle(d3, queue);
    assert d4.timers == map[1 := Timer(MIN_DELAY, MIN_DELAY)] && d4.timerId == 1;
    assert IsDue(d4, 1, c2);
    assert Handle(d4, fire).timers == map[2 := Timer(MIN_DELAY, 2 * MIN_DELAY)];
    RunFirst(d4, fire, []);
    RunFirst(d3, queue, [fire] + []);
    RunFirst(d2, Close, [queue] + ([fire] + []));
    RunFirst(d1, Caps, [Close] + ([queue] + ([fire] + [])));
    RunFirst(d0, Open, [Caps] + ([Close] + ([queue] + ([fire] + []))));
    assert [Open] + ([Caps] + ([Close] + ([queue] + ([fire] + [])))) == [Open, Caps, Close, queue, fire];
  }

  ghost predicate NeverFiresWhileClosed(d: Display, es: seq<Event>)
    decreases |es|
  {
    es == [] || (!FiresWhileClosed(d, es[0]) && NeverFiresWhileClosed(Handle(d, es[0]), es[1..]))
  }

  lemma {:induction false} RunKeepsIdExact(d: Display, es: seq<Event>)
    requires IdExact(d) && Paced(d) && MonotonicRun(d, es)
    requires forall e | e in es :: Lucky(e)
    requires NeverFiresWhileClosed(d, es)
    ensures IdExact(Run(d, es))
    decreases |es|
  {
    if es != [] {
      StepKeepsIdExact(d, es[0]);
      StepKeepsPace(d, es[0]);
      RunKeepsIdExact(Handle(d, es[0]), es[1..]);
    }
  }

  // ----- and the size does arrive -----

  ghost predicate UpToDate(d: Display)
  {
    d.target == d.lastSent && d.settings == d.lastSettings
  }

  /** A timer that fires half a second after the last layout brings the server up to
      date; one that fires earlier arms another, which will not be early. */
  lemma FiringDelivers(d: Display, id: nat, c: Clock)
    requires Paced(d) && Covered(d) && d.activated && d.channelOpen
    requires IsDue(d, id, c) && d.now <= c.check <= c.stamp <= c.arm < CLOCK_LIMIT
    ensures var d' := Handle(d, Fire(id, c, Luck(true, true)));
            if c.check - d.lastSentDate >= MIN_DELAY then UpToDate(d')
            else && d'.maxId in d'.timers
                 && d'.timers[d'.maxId].due >= d'.lastSentDate + MIN_DELAY
                 && d' == d.(timerId := 0, timers := d'.timers, maxId := d'.maxId, now := c.arm)
  {
  }

  /** However many timers are live, two firings are enough. */
  lemma TwoFiringsDeliver(d: Display, id: nat, c1: Clock, c2: Clock)
    requires Paced(d) && Covered(d) && d.activated && d.channelOpen
    requires IsDue(d, id, c1) && d.now <= c1.check <= c1.stamp <= c1.arm < CLOCK_LIMIT
    requires var d1 := Handle(d, Fire(id, c1, Luck(true, true)));
             c1.check - d.lastSentDate < MIN_DELAY ==>
               IsDue(d1, d1.maxId, c2) && c1.arm <= c2.check <= c2.stamp <= c2.arm < CLOCK_LIMIT
    ensures var d1 := Handle(d, Fire(id, c1, Luck(true, true)));
            UpToDate(d1) || UpToDate(Handle(d1, Fire(d1.maxId, c2, Luck(true, true))))
  {
    var e1 := Fire(id, c1, Luck(true, true));
    var d1 := Handle(d, e1);
    FiringDelivers(d, id, c1);
    StepKeepsPace(d, e1);
    StepCovers(d, e1);
    if c1.check - d.lastSentDate < MIN_DELAY {
      FiringDelivers(d1, d1.maxId, c2);
    }
  }

  /** While the id is exact, the first firing is enough. */
  lemma ExactFiringDelivers(d: Display, c: Clock)
    requires Paced(d) && IdExact(d) && d.activated && d.channelOpen && d.timerId != 0
    requires IsDue(d, d.timerId, c) && d.now <= c.check <= c.stamp <= c.arm < CLOCK_LIMIT
    ensures UpToDate(Handle(d, Fire(d.timerId, c, Luck(true, true))))
  {
    assert d.timerId in d.timers;
  }
}
