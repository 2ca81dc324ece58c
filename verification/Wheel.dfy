/** Wheel rotation: a frame of pointer events becomes wheel flags with nine-bit two's
    complement rotations, section 2.2.8.1.1.3.1.1.3 of MS-RDPBCGR. */
module Wheel {
  import opened Bytes

  const PTR_FLAGS_WHEEL_NEGATIVE := 0x0100
  const PTR_FLAGS_WHEEL := 0x0200
  const PTR_FLAGS_HWHEEL := 0x0400

  datatype Axis = Vertical | Horizontal | OtherAxis

  // ----- what a flags word says -----

  function AxisOf(flags: uint16): Axis
  {
    if flags / PTR_FLAGS_WHEEL == 1 then Vertical else if flags / PTR_FLAGS_WHEEL == 2 then Horizontal else OtherAxis
  }

  /** The lowest nine bits in two's complement. */
  function Rotation(flags: uint16): int
  {
    var r := flags % 0x200;
    if r < 0x100 then r else r - 0x200
  }

  /** The rotation of all words about one axis. */
  function Turned(sent: seq<uint16>, axis: Axis): int
  {
    if sent == [] then 0
    else Turned(sent[..|sent| - 1], axis) + if AxisOf(sent[|sent| - 1]) == axis then Rotation(sent[|sent| - 1]) else 0
  }

  lemma TurnedNext(sent: seq<uint16>, flags: uint16, axis: Axis)
    ensures Turned(sent + [flags], axis) == Turned(sent, axis) + if AxisOf(flags) == axis then Rotation(flags) else 0
  {
    assert (sent + [flags])[..|sent|] == sent;
  }

  // ----- splitting a rotation -----

  function Abs(value: int): nat
  {
    if value < 0 then -value else value
  }

  predicate Backwards(axis: Axis, value: int)
  {
    (axis.Vertical? && value > 0) || (axis.Horizontal? && value < 0)
  }

  function Base(axis: Axis, value: int): (flags: uint16)
    requires !axis.OtherAxis?
  {
    (if axis.Vertical? then PTR_FLAGS_WHEEL else PTR_FLAGS_HWHEEL)
    + (if Backwards(axis, value) then PTR_FLAGS_WHEEL_NEGATIVE else 0)
  }

  function Piece(axis: Axis, value: int, cval: int): (flags: uint16)
    requires !axis.OtherAxis? && 1 <= cval <= 0xFF
    ensures AxisOf(flags) == axis && Rotation(flags) == if Backwards(axis, value) then -cval else cval
  {
    Base(axis, value) + if Backwards(axis, value) then 0x100 - cval else cval
  }

  /** The words that turn `a` more in the direction of `value`. */
  function Pieces(axis: Axis, value: int, a: nat): (ps: seq<uint16>)
    requires !axis.OtherAxis?
    decreases a
  {
    if a == 0 then [] else
    var cval := if a > 0xFF then 0xFF else a;
    [Piece(axis, value, cval)] + Pieces(axis, value, a - cval)
  }

  // ----- sending -----

  /** Whether the send with a given number succeeds. */
  type Link = nat -> bool

  datatype Wire = Wire(sent: seq<uint16>, attempts: nat)

  function Send(link: Link, w: Wire, flags: uint16): (Wire, bool)
  {
    if link(w.attempts) then (Wire(w.sent + [flags], w.attempts + 1), true) else (Wire(w.sent, w.attempts + 1), false)
  }

  /** Sending until the first failure. */
  function SendAll(link: Link, w: Wire, ps: seq<uint16>): (Wire, bool)
    decreases |ps|
  {
    if ps == [] then (w, true) else
    var (next, ok) := Send(link, w, ps[0]);
    if ok then SendAll(link, next, ps[1..]) else (next, false)
  }

  /** One rotation: about an axis, how far, and whether its position could be scaled. */
  datatype Turn = Turn(axis: Axis, value: int, scaled: bool)

  /** wlf_handle_wheel */
  function Rotate(link: Link, w: Wire, t: Turn): (Wire, bool)
  {
    if !t.scaled || t.axis.OtherAxis? then (w, false) else SendAll(link, w, Pieces(t.axis, t.value, Abs(t.value)))
  }

  // ----- a frame of events -----

  datatype Source = WHEEL | WHEEL_TILT | FINGER | CONTINUOUS | OTHER_SOURCE

  /** The value of a touch pad's event is taken already scaled. */
  datatype PointerEvent =
    | AxisSource(source: Source)
    | AxisDiscrete(axis: Axis, steps: int, scaled: bool)
    | AxisScaled(axis: Axis, value: int, scaled: bool)
    | Unrelated

  function LastSource(es: seq<PointerEvent>): Option<Source>
  {
    if es == [] then None
    else if es[|es| - 1].AxisSource? then Some(es[|es| - 1].source)
    else LastSource(es[..|es| - 1])
  }

  /** What an event turns, read as its source says. */
  function TurnOf(source: Source, e: PointerEvent): Option<Turn>
  {
    if (source.WHEEL? || source.WHEEL_TILT?) && e.AxisDiscrete? then Some(Turn(e.axis, 0x78 * e.steps, e.scaled))
    else if (source.FINGER? || source.CONTINUOUS?) && e.AxisScaled? then Some(Turn(e.axis, e.value, e.scaled))
    else None
  }

  function HandleAll(link: Link, w: Wire, source: Source, es: seq<PointerEvent>): (Wire, bool)
    decreases |es|
  {
    if es == [] then (w, true) else
    var turn := TurnOf(source, es[0]);
    var (next, ok) := if turn.Some? then Rotate(link, w, turn.value) else (w, true);
    var (last, rest) := HandleAll(link, next, source, es[1..]);
    (last, ok && rest)
  }

  /** wlf_handle_pointer_frame */
  function Frame(link: Link, w: Wire, es: seq<PointerEvent>): (Wire, bool)
  {
    var source := LastSource(es);
    if source.None? then (w, true) else HandleAll(link, w, source.value, es)
  }

  // ----- conservation -----

  /** How far a signed rotation about its axis turns the wire: the vertical one is mirrored. */
  function Mirrored(axis: Axis, value: int): int
  {
    if axis.Vertical? then -value else value
  }

  ghost predicate WellSized(flags: uint16)
  {
    !AxisOf(flags).OtherAxis? && 1 <= Abs(Rotation(flags)) <= 0xFF
  }

  ghost predicate AddsWellSized(before: seq<uint16>, after: seq<uint16>)
  {
    before <= after && forall i | |before| <= i < |after| :: WellSized(after[i])
  }

  lemma {:induction false} PiecesSized(link: Link, w: Wire, axis: Axis, value: int, a: nat)
    requires !axis.OtherAxis?
    ensures AddsWellSized(w.sent, SendAll(link, w, Pieces(axis, value, a)).0.sent)
    decreases a
  {
    if a > 0 {
      var cval := if a > 0xFF then 0xFF else a;
      var p := Piece(axis, value, cval);
      assert Pieces(axis, value, a)[1..] == Pieces(axis, value, a - cval);
      if link(w.attempts) {
        PiecesSized(link, Wire(w.sent + [p], w.attempts + 1), axis, value, a - cval);
      }
    }
  }

  function Signed(negative: bool, a: int): int
  {
    if negative then -a else a
  }

  lemma PieceTurns(sent: seq<uint16>, axis: Axis, value: int, cval: int, any: Axis)
    requires !axis.OtherAxis? && 1 <= cval <= 0xFF
    ensures Turned(sent + [Piece(axis, value, cval)], any)
         == Turned(sent, any) + if any == axis then Signed(Backwards(axis, value), cval) else 0
  {
    TurnedNext(sent, Piece(axis, value, cval), any);
  }

  lemma SendFirst(link: Link, w: Wire, axis: Axis, value: int, a: nat, cval: nat)
    requires !axis.OtherAxis? && a > 0 && cval == if a > 0xFF then 0xFF else a
    ensures SendAll(link, w, Pieces(axis, value, a))
         == if !link(w.attempts) then (Wire(w.sent, w.attempts + 1), false)
            else SendAll(link, Wire(w.sent + [Piece(axis, value, cval)], w.attempts + 1), Pieces(axis, value, a - cval))
  {
    assert Pieces(axis, value, a)[1..] == Pieces(axis, value, a - cval);
  }

  /** Sending a split rotation turns its own axis only, never too far, and all the way
      exactly when every send succeeded. */
  lemma {:induction false} PiecesTurn(link: Link, w: Wire, axis: Axis, value: int, a: nat, any: Axis)
    requires !axis.OtherAxis?
    ensures var (last, ok) := SendAll(link, w, Pieces(axis, value, a));
            var moved := Signed(Backwards(axis, value), Turned(last.sent, any) - Turned(w.sent, any));
            if any == axis then 0 <= moved <= a && (ok <==> moved == a) else moved == 0
    decreases a
  {
    if a > 0 {
      var cval := if a > 0xFF then 0xFF else a;
      SendFirst(link, w, axis, value, a, cval);
      if link(w.attempts) {
        PieceTurns(w.sent, axis, value, cval, any);
        PiecesTurn(link, Wire(w.sent + [Piece(axis, value, cval)], w.attempts + 1), axis, value, a - cval, any);
      }
    }
  }

  /** One wheel rotation: the words sent are well sized, only its axis turns, and it turns
      by the value, mirrored if vertical, exactly when the rotation was handled. */
  lemma RotateTurns(link: Link, w: Wire, t: Turn, any: Axis)
    requires !any.OtherAxis?
    ensures var (last, ok) := Rotate(link, w, t);
            && AddsWellSized(w.sent, last.sent)
            && (any != t.axis ==> Turned(last.sent, any) == Turned(w.sent, any))
            && (ok && any == t.axis ==> Turned(last.sent, any) == Turned(w.sent, any) + Mirrored(any, t.value))
            && (!ok && any == t.axis && t.value != 0 ==>
                  Turned(last.sent, any) != Turned(w.sent, any) + Mirrored(any, t.value))
  {
    if t.scaled && !t.axis.OtherAxis? {
      PiecesSized(link, w, t.axis, t.value, Abs(t.value));
      PiecesTurn(link, w, t.axis, t.value, Abs(t.value), any);
    }
  }

  /** The values of all events about one axis that the source has interpreted. */
  function Total(source: Source, es: seq<PointerEvent>, axis: Axis): int
  {
    if es == [] then 0 else
    var turn := TurnOf(source, es[0]);
    (if turn.Some? && turn.value.axis == axis then turn.value.value else 0) + Total(source, es[1..], axis)
  }

  /** The discrete steps of a frame about one axis. */
  function Steps(es: seq<PointerEvent>, axis: Axis): int
  {
    if es == [] then 0
    else (if es[0].AxisDiscrete? && es[0].axis == axis then es[0].steps else 0) + Steps(es[1..], axis)
  }

  lemma {:induction false} WheelTotal(source: Source, es: seq<PointerEvent>, axis: Axis)
    requires source.WHEEL? || source.WHEEL_TILT?
    ensures Total(source, es, axis) == 120 * Steps(es, axis)
  {
    if es != [] {
      WheelTotal(source, es[1..], axis);
    }
  }

  lemma SizedTransitive(a: seq<uint16>, b: seq<uint16>, c: seq<uint16>)
    requires AddsWellSized(a, b) && AddsWellSized(b, c)
    ensures AddsWellSized(a, c)
  {
    forall i | |a| <= i < |c|
      ensures WellSized(c[i])
    {
      assert i < |b| ==> c[i] == b[i];
    }
  }

  lemma {:induction false} HandleAllTurns(link: Link, w: Wire, source: Source, es: seq<PointerEvent>, axis: Axis)
    requires !axis.OtherAxis?
    ensures var (last, ok) := HandleAll(link, w, source, es);
            && AddsWellSized(w.sent, last.sent)
            && (ok ==> Turned(last.sent, axis) == Turned(w.sent, axis) + Mirrored(axis, Total(source, es, axis)))
    decreases |es|
  {
    if es != [] {
      var turn := TurnOf(source, es[0]);
      var next := if turn.Some? then Rotate(link, w, turn.value).0 else w;
      if turn.Some? {
        RotateTurns(link, w, turn.value, axis);
      }
      HandleAllTurns(link, next, source, es[1..], axis);
      SizedTransitive(w.sent, next.sent, HandleAll(link, next, source, es[1..]).0.sent);
    }
  }

  /** A frame from a wheel that was handled turns the vertical wheel by -120 and the
      horizontal one by 120 times the discrete steps, in words of magnitude 1 to 255. */
  lemma WheelConserves(link: Link, w: Wire, es: seq<PointerEvent>)
    requires LastSource(es).Some? && (LastSource(es).value.WHEEL? || LastSource(es).value.WHEEL_TILT?)
    requires Frame(link, w, es).1
    ensures var last := Frame(link, w, es).0;
            && AddsWellSized(w.sent, last.sent)
            && Turned(last.sent, Vertical) == Turned(w.sent, Vertical) - 120 * Steps(es, Vertical)
            && Turned(last.sent, Horizontal) == Turned(w.sent, Horizontal) + 120 * Steps(es, Horizontal)
  {
    var source := LastSource(es).value;
    HandleAllTurns(link, w, source, es, Vertical);
    HandleAllTurns(link, w, source, es, Horizontal);
    WheelTotal(source, es, Vertical);
    WheelTotal(source, es, Horizontal);
  }

  lemma {:induction false} WorkingLinkSends(link: Link, w: Wire, ps: seq<uint16>)
    requires forall n: nat :: link(n)
    ensures SendAll(link, w, ps).1
    decreases |ps|
  {
    if ps != [] {
      WorkingLinkSends(link, Send(link, w, ps[0]).0, ps[1..]);
    }
  }

  /** What every send succeeding and every event having an axis and a position amount to. */
  lemma {:induction false} WorkingLinkHandles(link: Link, w: Wire, source: Source, es: seq<PointerEvent>)
    requires forall n: nat :: link(n)
    ensures HandleAll(link, w, source, es).1
       <==> forall i | 0 <= i < |es| :: TurnOf(source, es[i]).Some? ==>
              TurnOf(source, es[i]).value.scaled && !TurnOf(source, es[i]).value.axis.OtherAxis?
    decreases |es|
  {
    if es != [] {
      var turn := TurnOf(source, es[0]);
      var next := if turn.Some? then Rotate(link, w, turn.value).0 else w;
      if turn.Some? && turn.value.scaled && !turn.value.axis.OtherAxis? {
        WorkingLinkSends(link, w, Pieces(turn.value.axis, turn.value.value, Abs(turn.value.value)));
      }
      WorkingLinkHandles(link, next, source, es[1..]);
      assert forall i | 1 <= i < |es| :: es[i] == es[1..][i - 1];
    }
  }

  /** The advanced-input sender reads the same rotation out of every word. */
  function AinputValue(flags: uint16): int
  {
    var value := flags % 0x100;
    if flags / PTR_FLAGS_WHEEL_NEGATIVE % 2 == 1 then -1 * (0x100 - value) else value
  }

  lemma AinputAgrees(flags: uint16)
    ensures AinputValue(flags) == Rotation(flags)
  {
    assert flags % 0x200 == flags / 0x100 % 2 * 0x100 + flags % 0x100;
  }
}

/** The pointer frame handler in place. */
module WlfInput {
  import opened Bytes
  import opened Wheel

  class Input {
    const link: Link
    var events: seq<PointerEvent>
    var sent: seq<uint16>
    var attempts: nat

    ghost function Model(): Wire
      reads this
    {
      Wire(sent, attempts)
    }

    constructor (link: Link)
      ensures this.link == link && events == [] && Model() == Wire([], 0)
    {
      this.link, events, sent, attempts := link, [], [], 0;
    }

    /** wlf_handle_pointer_axis and its kin */
    method Append(e: PointerEvent)
      modifies this`events
      ensures events == old(events) + [e]
    {
      events := events + [e];
    }

    /** freerdp_client_send_wheel_event */
    method SendWheelEvent(flags: uint16) returns (ok: bool)
      modifies this`sent, this`attempts
      ensures (Model(), ok) == Send(link, old(Model()), flags)
    {
      ok := link(attempts);
      attempts := attempts + 1;
      if ok {
        sent := sent + [flags];
      }
    }

    method HandleWheel(axis: Axis, value: int, scaled: bool) returns (ok: bool)
      modifies this`sent, this`attempts
      ensures (Model(), ok) == Rotate(link, old(Model()), Turn(axis, value, scaled))
    {
      if !scaled {
        return false;
      }
      var flags := 0;
      match axis {
        case Vertical =>
          flags := PTR_FLAGS_WHEEL;
          if value > 0 {
            flags := flags + PTR_FLAGS_WHEEL_NEGATIVE;
          }
        case Horizontal =>
          flags := PTR_FLAGS_HWHEEL;
          if value < 0 {
            flags := flags + PTR_FLAGS_WHEEL_NEGATIVE;
          }
        case OtherAxis =>
          return false;
      }
      var avalue := Abs(value);
      while avalue > 0
        invariant SendAll(link, Model(), Pieces(axis, value, avalue))
               == Rotate(link, old(Model()), Turn(axis, value, scaled))
      {
        var cval := if avalue > 0xFF then 0xFF else avalue;
        var cflags := flags + cval;
        if flags / PTR_FLAGS_WHEEL_NEGATIVE % 2 == 1 {
          cflags := flags + (0x100 - cval);
        }
        assert cflags == Piece(axis, value, cval);
        assert Pieces(axis, value, avalue)[1..] == Pieces(axis, value, avalue - cval);
        ok := SendWheelEvent(cflags);
        if !ok {
          return;
        }
        avalue := avalue - cval;
      }
      return true;
    }

    method FindSource() returns (source: Option<Source>)
      ensures source == LastSource(events)
    {
      source := None;
      for x := 0 to |events|
        invariant source == LastSource(events[..x])
      {
        assert events[..x + 1][..x] == events[..x];
        if events[x].AxisSource? {
          source := Some(events[x].source);
        }
      }
      assert events[..|events|] == events;
    }

    /** wlf_handle_pointer_frame */
    method HandlePointerFrame() returns (success: bool)
      modifies this
      ensures events == [] && (Model(), success) == Frame(link, old(Model()), old(events))
    {
      success := true;
      var source := FindSource();
      if source.Some? {
        ghost var goal := HandleAll(link, Model(), source.value, events);
        for x := 0 to |events|
          invariant events == old(events)
          invariant goal == (HandleAll(link, Model(), source.value, events[x..]).0,
                             success && HandleAll(link, Model(), source.value, events[x..]).1)
        {
          assert events[x..][1..] == events[x + 1..];
          var turn := TurnOf(source.value, events[x]);
          if turn.Some? {
            var ok := HandleWheel(turn.value.axis, turn.value.value, turn.value.scaled);
            if !ok {
              success := false;
            }
          }
        }
      }
      events := [];
    }
  }
}
