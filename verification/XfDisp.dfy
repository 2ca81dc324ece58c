/** The display channel context and its handlers, updating their fields in place. */
module XfDisp {
  import RT = ResizeThrottle

  class DispContext {
    var target: RT.Size
    var lastSent: RT.Size
    var settings: RT.Settings
    var lastSettings: RT.Settings
    var lastSentDate: nat
    var activated: bool
    var channelOpen: bool
    var timerId: nat

    // the timer service and what the channel was given
    var timers: map<nat, RT.Timer>
    var maxId: nat
    var attempts: seq<RT.Attempt>
    var now: nat

    function Model(): RT.Display
      reads this
    {
      RT.Display(target, lastSent, settings, lastSettings, lastSentDate, activated, channelOpen,
                 timerId, timers, maxId, attempts, now)
    }

    /** xf_disp_new */
    constructor (size: RT.Size, settings: RT.Settings)
      ensures Model() == RT.Initial(size, settings)
    {
      target, lastSent, this.settings := size, size, settings;
      lastSettings, lastSentDate := RT.Settings(0, 0, 0, false), 0;
      activated, channelOpen, timerId := false, false, 0;
      timers, maxId, attempts, now := map[], 0, [], 0;
    }

    /** freerdp_timer_add; id 0 means failure. */
    method TimerAdd(interval: nat, c: RT.Clock, l: RT.Luck) returns (id: nat)
      modifies this`timers, this`maxId
      ensures if interval == 0 then id == 0 && timers == old(timers) && maxId == old(maxId)
              else if !l.add then id == 0 && timers == old(timers) && maxId == old(maxId) + 1
              else id == maxId == old(maxId) + 1 && timers == old(timers)[id := RT.Timer(interval, c.arm + interval)]
    {
      if interval == 0 {
        return 0;
      }
      maxId := maxId + 1;
      if !l.add {
        return 0;
      }
      timers := timers[maxId := RT.Timer(interval, c.arm + interval)];
      return maxId;
    }

    /** update_timer */
    method UpdateTimer(interval: nat, c: RT.Clock, l: RT.Luck) returns (ok: bool)
      modifies this`timers, this`maxId, this`timerId
      ensures (Model(), ok) == RT.UpdateTimer(old(Model()), interval, c, l)
    {
      if timerId != 0 {
        timers := timers - {timerId};
      }
      timerId := TimerAdd(interval, c, l);
      ok := timerId != 0;
    }

    /** xf_disp_settings_changed */
    method SettingsChanged() returns (changed: bool)
      ensures changed <==> RT.SettingsChanged(Model())
    {
      if lastSent.width != target.width {
        return true;
      }
      if lastSent.height != target.height {
        return true;
      }
      if lastSettings.orientation != settings.orientation {
        return true;
      }
      if lastSettings.desktopScale != settings.desktopScale {
        return true;
      }
      if lastSettings.deviceScale != settings.deviceScale {
        return true;
      }
      if lastSettings.fullscreen != settings.fullscreen {
        return true;
      }
      return false;
    }

    /** xf_disp_sendResize */
    method SendResize(fromTimer: bool, c: RT.Clock, l: RT.Luck) returns (ok: bool)
      modifies this
      ensures (Model(), ok) == RT.SendResize(old(Model()), fromTimer, c, l)
    {
      if timerId != 0 && !fromTimer {
        return true;
      }
      if !activated || !channelOpen {
        ok := UpdateTimer(RT.MIN_DELAY, c, l);
        return;
      }
      var diff := RT.Age(c.check, lastSentDate);
      if diff < RT.MIN_DELAY {
        ok := UpdateTimer(RT.MIN_DELAY - diff, c, l);
        return;
      }
      var changed := SettingsChanged();
      if !changed {
        return true;
      }
      lastSentDate := c.stamp;
      attempts := attempts + [RT.Attempt(c.stamp, target)];
      if !l.send {
        return false;
      }
      lastSent, lastSettings := target, settings;
      return true;
    }

    /** xf_disp_queueResize */
    method QueueResize(size: RT.Size, c: RT.Clock, l: RT.Luck) returns (ok: bool)
      modifies this
      ensures (Model(), ok) == RT.QueueResize(old(Model()), size, c, l)
    {
      if target == size {
        return true;
      }
      target := size;
      ok := SendResize(false, c, l);
    }

    /** xf_disp_OnTimer, inside runTimerEvent */
    method OnTimer(id: nat, c: RT.Clock, l: RT.Luck)
      requires id in timers
      modifies this
      ensures Model() == RT.OnTimer(old(Model()), id, c, l)
    {
      if !activated {
        var interval := timers[id].interval;
        timers := timers[id := RT.Timer(interval, c.arm + interval)];
        return;
      }
      var _ := SendResize(true, c, l);
      timerId := 0;
      timers := timers - {id};
    }
  }
}
