/** An application window's state as the window manager announces it and as the RAIL
    server is told it, and the normalizing of a window that the window manager made
    fullscreen when the server maximized it. */
module RailState {
  import opened Bytes

  // show states and system commands
  const WINDOW_HIDE: byte := 0x00
  const WINDOW_SHOW_MINIMIZED: byte := 0x02
  const WINDOW_SHOW_MAXIMIZED: byte := 0x03
  const WINDOW_SHOW: byte := 0x05
  const SC_MINIMIZE: uint16 := 0xF020
  const SC_MAXIMIZE: uint16 := 0xF030
  const SC_RESTORE: uint16 := 0xF120

  datatype Atom = FULLSCREEN | MAXIMIZED_VERT | MAXIMIZED_HORZ | OTHER(id: nat)

  /** What the client asks of the window manager. */
  datatype Request = RemoveFullscreen | AddMaximized

  datatype Window = Window(
    maxVert: bool,
    maxHorz: bool,
    minimized: bool,
    railState: byte,
    normalizing: bool,
    commands: seq<uint16>,
    requests: seq<Request>)
  {
    predicate Maximized() { maxVert && maxHorz }
  }

  /** A property that changed, with what reading it gave. */
  datatype Event =
    | NetWmState(atoms: Option<seq<Atom>>)
    | WmState(state: Option<byte>, gnome: bool)

  /** WM_STATE is iconic, which is not believed of GNOME. */
  predicate Iconic(state: byte, gnome: bool)
  {
    state == 3 && !gnome
  }

  /** The state the flags call for, and the command that tells the server. */
  function Wanted(w: Window): (byte, uint16)
  {
    if w.Maximized() && !w.minimized then (WINDOW_SHOW_MAXIMIZED, SC_MAXIMIZE)
    else if w.minimized then (WINDOW_SHOW_MINIMIZED, SC_MINIMIZE)
    else (WINDOW_SHOW, SC_RESTORE)
  }

  /** The server is told when the state differs; a hidden window counts as shown. */
  function Report(w: Window): Window
  {
    var (state, command) := Wanted(w);
    if w.railState == state || (state == WINDOW_SHOW && w.railState == WINDOW_HIDE) then w
    else w.(railState := state, commands := w.commands + [command])
  }

  function Asked(fullscreen: bool, maximized: bool): seq<Request>
  {
    (if fullscreen then [RemoveFullscreen] else []) + (if maximized then [] else [AddMaximized])
  }

  /** A read of the window manager's state, and whether the server hears of it. */
  function Observe(w: Window, atoms: seq<Atom>): (Window, bool)
  {
    var fullscreen := FULLSCREEN in atoms;
    var w := w.(maxVert := MAXIMIZED_VERT in atoms, maxHorz := MAXIMIZED_HORZ in atoms);
    if w.normalizing && !fullscreen && w.Maximized() then (w.(normalizing := false), true)
    else if w.normalizing || (fullscreen && w.railState == WINDOW_SHOW_MAXIMIZED) then
      (w.(normalizing := true, requests := w.requests + Asked(fullscreen, w.Maximized())), false)
    else (w, true)
  }

  /** xf_event_PropertyNotify for an application window */
  function Step(w: Window, e: Event): Window
  {
    match e
    case NetWmState(None) => Report(w)
    case NetWmState(Some(atoms)) =>
      var (seen, tell) := Observe(w, atoms);
      if tell then Report(seen) else seen
    case WmState(None, _) => Report(w)
    case WmState(Some(state), gnome) => Report(w.(minimized := Iconic(state, gnome)))
  }

  predicate Gated(w: Window, e: Event)
  {
    e.NetWmState? && e.atoms.Some? && !Observe(w, e.atoms.value).1
  }

  /** What an event does to the flags before the report. */
  function Noted(w: Window, e: Event): Window
  {
    match e
    case NetWmState(None) => w
    case NetWmState(Some(atoms)) => Observe(w, atoms).0
    case WmState(None, _) => w
    case WmState(Some(state), gnome) => w.(minimized := Iconic(state, gnome))
  }

  function Run(w: Window, es: seq<Event>): Window
    decreases |es|
  {
    if es == [] then w else Run(Step(w, es[0]), es[1..])
  }

  lemma UngatedReports(w: Window, e: Event)
    ensures Step(w, e) == if Gated(w, e) then Noted(w, e) else Report(Noted(w, e))
    ensures Noted(w, e).commands == w.commands && Noted(w, e).railState == w.railState
  {
  }

  lemma {:induction false} RunAppend(w: Window, es: seq<Event>, more: seq<Event>)
    ensures Run(w, es + more) == Run(Run(w, es), more)
    decreases |es|
  {
    if es == [] {
      assert es + more == more;
    } else {
      assert (es + more)[1..] == es[1..] + more;
      RunAppend(Step(w, es[0]), es[1..], more);
    }
  }

  // ----- commands are never taken back -----

  lemma ReportSends(w: Window)
    ensures var w' := Report(w);
            || (w'.commands == w.commands && w'.railState == w.railState)
            || (w.commands < w'.commands && |w'.commands| == |w.commands| + 1)
  {
  }

  lemma StepSends(w: Window, e: Event)
    ensures var w' := Step(w, e);
            || (w'.commands == w.commands && w'.railState == w.railState)
            || (w.commands < w'.commands && |w'.commands| == |w.commands| + 1)
  {
    UngatedReports(w, e);
    ReportSends(Noted(w, e));
  }

  lemma {:induction false} CommandsGrow(w: Window, es: seq<Event>)
    ensures w.commands <= Run(w, es).commands
    decreases |es|
  {
    if es != [] {
      StepSends(w, es[0]);
      CommandsGrow(Step(w, es[0]), es[1..]);
    }
  }

  // ----- silence while normalizing -----

  predicate Max(atoms: seq<Atom>)
  {
    MAXIMIZED_VERT in atoms && MAXIMIZED_HORZ in atoms
  }

  /** The notification that ends normalizing. */
  predicate Restored(e: Event)
  {
    e.NetWmState? && e.atoms.Some? && Max(e.atoms.value) && FULLSCREEN !in e.atoms.value
  }

  /** Whether a run of notifications makes every ungated report see a maximized window that
      is not an icon: only successful reads of the window manager's state are held back. */
  predicate Calm(es: seq<Event>, maximized: bool)
    decreases |es|
  {
    es == [] ||
    match es[0]
    case NetWmState(None) => maximized && Calm(es[1..], maximized)
    case NetWmState(Some(atoms)) => Calm(es[1..], Max(atoms))
    case WmState(None, _) => maximized && Calm(es[1..], maximized)
    case WmState(Some(state), gnome) => maximized && !Iconic(state, gnome) && Calm(es[1..], maximized)
  }

  predicate Normalizing(w: Window)
  {
    w.normalizing && w.railState == WINDOW_SHOW_MAXIMIZED && !w.minimized
  }

  lemma CalmStep(w: Window, e: Event)
    requires Normalizing(w) && !Restored(e)
    ensures var w' := Step(w, e);
            if e.NetWmState? && e.atoms.Some? then
              Normalizing(w') && w'.commands == w.commands && w'.Maximized() == Max(e.atoms.value)
            else if w.Maximized() && !(e.WmState? && e.state.Some? && Iconic(e.state.value, e.gnome)) then w' == w
            else |w'.commands| == |w.commands| + 1
  {
  }

  /** While normalizing, before it ends: no command is sent exactly when the run is calm, and
      then the server's state stays maximized. */
  lemma {:induction false} SilentIffCalm(w: Window, es: seq<Event>)
    requires Normalizing(w) && forall i | 0 <= i < |es| :: !Restored(es[i])
    ensures Run(w, es).commands == w.commands <==> Calm(es, w.Maximized())
    ensures Calm(es, w.Maximized()) ==> Normalizing(Run(w, es))
    decreases |es|
  {
    if es != [] {
      var e, w' := es[0], Step(w, es[0]);
      CalmStep(w, e);
      if w'.commands == w.commands {
        SilentIffCalm(w', es[1..]);
      } else {
        CommandsGrow(w', es[1..]);
      }
    }
  }

  lemma {:induction false} ReadsAreCalm(es: seq<Event>, maximized: bool)
    requires forall i | 0 <= i < |es| :: es[i].NetWmState? && es[i].atoms.Some?
    ensures Calm(es, maximized)
    decreases |es|
  {
    if es != [] {
      ReadsAreCalm(es[1..], Max(es[0].atoms.value));
    }
  }

  /** A window the server maximized and the window manager made fullscreen: from that
      notification through any others to the one that shows it maximized and not fullscreen,
      all read successfully, the server is told nothing, its state stays maximized and
      normalizing is over. */
  lemma NormalizingIsSilent(w: Window, first: seq<Atom>, es: seq<Event>, last: seq<Atom>)
    requires w.railState == WINDOW_SHOW_MAXIMIZED && !w.minimized && FULLSCREEN in first
    requires forall i | 0 <= i < |es| :: es[i].NetWmState? && es[i].atoms.Some? && !Restored(es[i])
    requires Restored(NetWmState(Some(last)))
    ensures var w' := Run(w, [NetWmState(Some(first))] + es + [NetWmState(Some(last))]);
            && w'.commands == w.commands
            && w'.railState == WINDOW_SHOW_MAXIMIZED && w'.Maximized() && !w'.normalizing
  {
    var start, end := NetWmState(Some(first)), NetWmState(Some(last));
    var seen := Step(w, start);
    assert Normalizing(seen) && seen.commands == w.commands;
    RunAppend(w, [start] + es, [end]);
    assert ([start] + es)[1..] == es;
    ReadsAreCalm(es, seen.Maximized());
    SilentIffCalm(seen, es);
    assert Run(Run(seen, es), [end]) == Step(Run(seen, es), end) by { assert [end][1..] == []; }
  }

  /** Normalizing does leak: an unchanged WM_STATE between two reads tells the server to
      restore the window. */
  lemma LeakWhileNormalizing(w: Window, normal: Event)
    requires normal.WmState? && normal.state == Some(1)
    requires w.railState == WINDOW_SHOW_MAXIMIZED && !w.minimized
    ensures var w' := Run(w, [NetWmState(Some([FULLSCREEN])), normal]);
            w'.commands == w.commands + [SC_RESTORE] && w'.railState == WINDOW_SHOW && w'.normalizing
  {
    var es := [NetWmState(Some([FULLSCREEN])), normal];
    assert es[1..] == [normal] && es[1..][1..] == [];
    assert Run(Step(Step(w, es[0]), es[1]), []) == Step(Step(w, es[0]), es[1]);
  }

  // ----- the server's view of the window -----

  /** The server's state is what the flags call for, a hidden window passing for a shown one. */
  predicate Settled(w: Window)
  {
    w.railState == Wanted(w).0 || (w.railState == WINDOW_HIDE && Wanted(w).0 == WINDOW_SHOW)
  }

  lemma ReportSettles(w: Window)
    ensures var w' := Report(w);
            && Settled(w') && Wanted(w') == Wanted(w)
            && w'.commands == if w'.railState == w.railState then w.commands else w.commands + [Wanted(w).1]
  {
  }

  /** After any event that is not held back the server's state is what the flags call for,
      a hidden window passing for a shown one, and it was told exactly when that changed. */
  lemma ServerAgrees(w: Window, e: Event)
    requires !Gated(w, e)
    ensures var w' := Step(w, e);
            && Settled(w')
            && w'.commands == if w'.railState == w.railState then w.commands else w.commands + [Wanted(w').1]
  {
    UngatedReports(w, e);
    ReportSettles(Noted(w, e));
  }

  function StateOf(command: uint16): byte
  {
    if command == SC_MAXIMIZE then WINDOW_SHOW_MAXIMIZED
    else if command == SC_MINIMIZE then WINDOW_SHOW_MINIMIZED
    else WINDOW_SHOW
  }

  /** Of the commands after the first `n`, the last names the server's state and no two in
      a row are the same. */
  ghost predicate Told(w: Window, n: nat)
  {
    && n <= |w.commands|
    && (n < |w.commands| ==> w.railState == StateOf(w.commands[|w.commands| - 1]))
    && forall i | n <= i < |w.commands| - 1 :: w.commands[i] != w.commands[i + 1]
  }

  lemma ReportTold(w: Window, n: nat)
    requires Told(w, n)
    ensures Told(Report(w), n)
  {
    var told := Report(w);
    if told != w && n < |w.commands| {
      assert StateOf(Wanted(w).1) == Wanted(w).0 != StateOf(w.commands[|w.commands| - 1]);
    }
  }

  lemma {:induction false} RunTold(w: Window, n: nat, es: seq<Event>)
    requires Told(w, n)
    ensures Told(Run(w, es), n)
    decreases |es|
  {
    if es != [] {
      UngatedReports(w, es[0]);
      ReportTold(Noted(w, es[0]), n);
      RunTold(Step(w, es[0]), n, es[1..]);
    }
  }

  lemma {:induction false} StateMovesWithCommands(w: Window, es: seq<Event>)
    ensures |Run(w, es).commands| == |w.commands| ==> Run(w, es).railState == w.railState
    decreases |es|
  {
    if es != [] {
      var w' := Step(w, es[0]);
      StepSends(w, es[0]);
      CommandsGrow(w', es[1..]);
      StateMovesWithCommands(w', es[1..]);
    }
  }

  /** Over every run, the server's state is the one the last command of the run names, the
      old one if the run sent none, and no command is sent twice in a row. */
  lemma CommandsFollowState(w: Window, es: seq<Event>)
    ensures var w', n := Run(w, es), |w.commands|;
            && w.commands <= w'.commands
            && w'.railState == (if |w'.commands| == n then w.railState else StateOf(w'.commands[|w'.commands| - 1]))
            && forall i | n <= i < |w'.commands| - 1 :: w'.commands[i] != w'.commands[i + 1]
  {
    CommandsGrow(w, es);
    RunTold(w, |w.commands|, es);
    StateMovesWithCommands(w, es);
  }
}

/** The window's fields updated in place. */
module XfAppWindow {
  import opened Bytes
  import opened RailState

  class AppWindow {
    var maxVert: bool
    var maxHorz: bool
    var minimized: bool
    var railState: byte
    var normalizing: bool
    var commands: seq<uint16>
    var requests: seq<Request>

    ghost function Model(): Window
      reads this
    {
      Window(maxVert, maxHorz, minimized, railState, normalizing, commands, requests)
    }

    constructor ()
      ensures Model() == Window(false, false, false, WINDOW_HIDE, false, [], [])
    {
      maxVert, maxHorz, minimized, railState := false, false, false, WINDOW_HIDE;
      normalizing, commands, requests := false, [], [];
    }

    method SendCommand(state: byte, command: uint16)
      modifies this`railState, this`commands
      ensures railState == state && commands == old(commands) + [command]
    {
      railState := state;
      commands := commands + [command];
    }

    /** The loop over the property's atoms. */
    method ScanAtoms(atoms: seq<Atom>) returns (fullscreen: bool)
      modifies this`maxVert, this`maxHorz
      ensures fullscreen == (FULLSCREEN in atoms)
      ensures maxVert == (MAXIMIZED_VERT in atoms) && maxHorz == (MAXIMIZED_HORZ in atoms)
    {
      fullscreen, maxVert, maxHorz := false, false, false;
      for i := 0 to |atoms|
        invariant fullscreen == (FULLSCREEN in atoms[..i])
        invariant maxVert == (MAXIMIZED_VERT in atoms[..i]) && maxHorz == (MAXIMIZED_HORZ in atoms[..i])
      {
        if atoms[i] == FULLSCREEN {
          fullscreen := true;
        }
        if atoms[i] == MAXIMIZED_VERT {
          maxVert := true;
        }
        if atoms[i] == MAXIMIZED_HORZ {
          maxHorz := true;
        }
      }
      assert atoms[..|atoms|] == atoms;
    }

    /** A successful read of NET_WM_STATE, up to the report */
    method NetWmStateRead(atoms: seq<Atom>) returns (tell: bool)
      modifies this`maxVert, this`maxHorz, this`normalizing, this`requests
      ensures (Model(), tell) == Observe(old(Model()), atoms)
    {
      var fullscreen := ScanAtoms(atoms);
      if normalizing {
        if !fullscreen && maxVert && maxHorz {
          normalizing := false;
          return true;
        }
        if fullscreen {
          requests := requests + [RemoveFullscreen];
        }
        if !maxVert || !maxHorz {
          requests := requests + [AddMaximized];
        }
        assert requests == old(requests) + Asked(fullscreen, maxVert && maxHorz);
        return false;
      } else if fullscreen && railState == WINDOW_SHOW_MAXIMIZED {
        normalizing := true;
        requests := requests + [RemoveFullscreen];
        if !maxVert || !maxHorz {
          requests := requests + [AddMaximized];
        }
        assert requests == old(requests) + Asked(fullscreen, maxVert && maxHorz);
        return false;
      }
      return true;
    }

    /** The report to the server */
    method ReportState()
      modifies this`railState, this`commands
      ensures Model() == Report(old(Model()))
    {
      if maxVert && maxHorz && !minimized {
        if railState != WINDOW_SHOW_MAXIMIZED {
          SendCommand(WINDOW_SHOW_MAXIMIZED, SC_MAXIMIZE);
        }
      } else if minimized {
        if railState != WINDOW_SHOW_MINIMIZED {
          SendCommand(WINDOW_SHOW_MINIMIZED, SC_MINIMIZE);
        }
      } else if railState != WINDOW_SHOW && railState != WINDOW_HIDE {
        SendCommand(WINDOW_SHOW, SC_RESTORE);
      }
    }

    method PropertyNotify(e: Event)
      modifies this
      ensures Model() == Step(old(Model()), e)
    {
      match e {
        case NetWmState(None) =>
        case NetWmState(Some(atoms)) =>
          var tell := NetWmStateRead(atoms);
          if !tell {
            return;
          }
        case WmState(None, _) =>
        case WmState(Some(state), gnome) => minimized := Iconic(state, gnome);
      }
      ReportState();
    }
  }
}
