/** Medium access in memory (src/mac.c, src/skylink_tx.c:21-154). */
module Macs {
  import opened Base
  import opened Utilities
  import opened MacSpec

  /** The limits that sky_mac_create puts on a configuration. */
  method Limit(cfg: MacConfig) returns (c: MacConfig)
    ensures c == Sanitized(cfg)
  {
    c := cfg;
    if c.minWindow > c.maxWindow { c := c.(maxWindow := c.minWindow); }
    if c.idleFrames > 3 { c := c.(idleFrames := 3); }
    if c.idleTimeout < 5000 || c.idleTimeout > 90000 { c := c.(idleTimeout := 25000); }
    if c.carrierSense >= c.minWindow + c.gap { c := c.(carrierSense := c.minWindow + c.gap); }
    if c.adjustmentPeriod < 1 { c := c.(adjustmentPeriod := 1); }
    if c.adjustmentPeriod > 4 { c := c.(adjustmentPeriod := 4); }
  }

  class SkyMac {
    const config: MacConfig
    const framesPerVc: array<uint16>
    var t0: int
    var myWindow: int
    var peerWindow: int
    var lastBelief: int
    var adjustCounter: int
    var roundRobinStart: nat
    var windowOn: bool
    var unusedWindowTime: bool
    var totalFrames: uint16

    ghost function View(): MacState
      reads this, framesPerVc
    {
      MacState(t0, myWindow, peerWindow, lastBelief, adjustCounter, roundRobinStart, windowOn, unusedWindowTime,
               framesPerVc[..], totalFrames)
    }

    ghost predicate Valid()
      reads this, framesPerVc
    {
      ConfigOk(config) && MacOk(config, View())
    }

    /** sky_mac_create */
    constructor (cfg: MacConfig)
      requires 1 <= cfg.minWindow && 0 <= cfg.gap && 0 <= cfg.tail && 0 <= cfg.increment
      ensures Valid() && fresh(framesPerVc)
      ensures config == Sanitized(cfg) && View() == MacCreated(config)
    {
      var c := Limit(cfg);
      config := c;
      t0, adjustCounter, windowOn, unusedWindowTime := 0, 0, false, false;
      myWindow, peerWindow := c.minWindow, c.minWindow;
      lastBelief, totalFrames, roundRobinStart := MOD_TIME_TICKS - 300000, 0, 0;
      framesPerVc := new uint16[SKY_NUM_VIRTUAL_CHANNELS](_ => 0);
      new;
      SanitizedOk(cfg);
      assert framesPerVc[..] == NO_FRAMES;
    }

    // --------------------------------------------------------------- reading the cycle

    /** get_mac_cycle */
    function CycleLength(): (c: int)
      reads this, framesPerVc
      requires Valid()
      ensures c == Cycle(config, View()) > 0
    {
      myWindow + config.gap + peerWindow + config.tail
    }

    /** wrap_tdd_cycle of wrapped time */
    method WrapTddCycle(ticks: int) returns (dt: int)
      requires Valid()
      ensures dt == WrapTime(ticks) % Cycle(config, View())
    {
      dt := PositiveModulo(ticks, MOD_TIME_TICKS);
      dt := PositiveModulo(dt, CycleLength());
    }

    /** mac_time_to_own_window */
    method TimeToOwn(now: int) returns (ticks: int)
      requires Valid()
      ensures ticks == TimeToOwnWindow(config, View(), now) >= 0
    {
      var dt := WrapTddCycle(now - t0);
      if dt < myWindow {
        return 0;
      }
      return CycleLength() - dt;
    }

    /** mac_own_window_remaining */
    method OwnWindowRemaining(now: int) returns (ticks: int)
      requires Valid()
      ensures ticks == OwnRemaining(config, View(), now)
    {
      var dt := WrapTddCycle(now - t0);
      return myWindow - dt;
    }

    /** mac_peer_window_remaining */
    method PeerWindowRemaining(now: int) returns (ticks: int)
      requires Valid()
      ensures ticks == PeerRemaining(config, View(), now)
    {
      var dt := WrapTddCycle(now - (t0 + myWindow + config.gap));
      return peerWindow - dt;
    }

    /** mac_can_send */
    method MayTransmit(now: int) returns (yes: bool)
      requires Valid()
      ensures yes == CanSend(config, View(), now)
    {
      var left := OwnWindowRemaining(now);
      return left > 0;
    }

    /** mac_set_frame_fields */
    method FrameFields(now: int) returns (window: uint16, remaining: uint16)
      requires Valid()
      ensures (window, remaining) == TddFields(config, View(), now)
    {
      var left := OwnWindowRemaining(now);
      if left < 1 { left := 1; }
      return myWindow % 0x1_0000, left % 0x1_0000;
    }

    /** mac_idle_frame_needed */
    method NeedsIdleFrame(now: int) returns (yes: bool)
      requires Valid()
      ensures yes == IdleFrameNeeded(config, View(), now)
    {
      if config.idleFrames == 0 {
        return false;
      }
      var age := PositiveModulo(now - lastBelief, MOD_TIME_TICKS);
      return age <= config.idleTimeout && totalFrames < config.idleFrames;
    }

    // --------------------------------------------------------------- moving the windows

    /** mac_shift_windowing */
    method Shift(shift: int)
      requires Valid()
      modifies `t0
      ensures Valid() && View() == ShiftWindowing(old(View()), shift)
    {
      t0 := PositiveModulo(t0 - (if shift > 0 then shift else -shift), MOD_TIME_TICKS);
    }

    /** mac_expand_window */
    method Expand(now: int)
      requires Valid()
      modifies `t0, `myWindow
      ensures Valid() && View() == ExpandWindow(config, old(View()), now)
    {
      myWindow := myWindow + config.increment;
      if myWindow > config.maxWindow {
        myWindow := config.maxWindow;
      }
      t0 := PositiveModulo(now - CycleLength(), MOD_TIME_TICKS);
    }

    /** mac_shrink_window */
    method Shrink(now: int)
      requires Valid()
      modifies `t0, `myWindow
      ensures Valid() && View() == ShrinkWindow(config, old(View()), now)
    {
      myWindow := myWindow - config.increment;
      if myWindow < config.minWindow {
        myWindow := config.minWindow;
      }
      t0 := PositiveModulo(now - CycleLength(), MOD_TIME_TICKS);
    }

    /** mac_reset */
    method Reset(now: int)
      requires Valid()
      modifies `t0, `myWindow, `adjustCounter
      ensures Valid() && View() == ResetWindow(config, old(View()), now)
    {
      adjustCounter := 0;
      myWindow := config.minWindow;
      t0 := PositiveModulo(now - CycleLength(), MOD_TIME_TICKS);
    }

    /** sky_mac_carrier_sensed */
    method SenseCarrier(now: int)
      requires Valid()
      modifies `t0
      ensures Valid() && View() == CarrierSensed(config, old(View()), now)
    {
      var ticks := TimeToOwn(now);
      if ticks <= config.carrierSense {
        t0 := PositiveModulo(now - CycleLength() + config.carrierSense, MOD_TIME_TICKS);
      }
    }

    method ClearFrameCounts()
      modifies `totalFrames, framesPerVc
      ensures framesPerVc.Length == SKY_NUM_VIRTUAL_CHANNELS ==> framesPerVc[..] == NO_FRAMES
      ensures totalFrames == 0
    {
      totalFrames := 0;
      for i := 0 to framesPerVc.Length
        invariant totalFrames == 0 && forall k :: 0 <= k < i ==> framesPerVc[k] == 0
      {
        framesPerVc[i] := 0;
      }
    }

    /** mac_update_belief */
    method Update(now: int, receiveTime: int, length: int, remaining: int)
      requires Valid()
      modifies this, framesPerVc
      ensures Valid() && View() == UpdateBelief(config, old(View()), now, receiveTime, length, remaining)
    {
      hide WrapTime;
      var window, left := length, remaining;
      if window < config.minWindow {
        window := config.minWindow;
      } else if window > config.maxWindow {
        window := config.maxWindow;
      }
      if left > window {
        left := window;
      }
      lastBelief := now;
      peerWindow := window;
      t0 := BelievedStart(now, receiveTime, left);
      ClearFrameCounts();
    }

    /** The later of the implied and the minimal start of the cycle. */
    method BelievedStart(now: int, receiveTime: int, left: int) returns (start: int)
      requires ConfigOk(config)
      ensures var later := if now < receiveTime then receiveTime + WrapTime(now - receiveTime) else now;
              var back := config.tail - Cycle(config, View());
              start == WrapTime(Max(receiveTime + left + back, later + back))
    {
      var later := now;
      if now < receiveTime {
        later := PositiveModulo(now - receiveTime, MOD_TIME_TICKS);
        later := receiveTime + later;
      }
      var cycle := myWindow + config.gap + peerWindow + config.tail;
      var implied := receiveTime + left + (config.tail - cycle);
      var minimum := later + (config.tail - cycle);
      if implied < minimum {
        start := PositiveModulo(minimum, MOD_TIME_TICKS);
      } else {
        start := PositiveModulo(implied, MOD_TIME_TICKS);
      }
    }

    // ------------------------------------------------------------------- transmitting

    /** _sky_tx_track_tdd_state */
    method TrackTddState(canSend: bool, content: bool, now: int)
      requires Valid()
      modifies this, framesPerVc
      ensures Valid() && View() == Track(config, old(View()), canSend, content, now)
    {
      if canSend && !content {
        unusedWindowTime := true;
      }
      if !canSend && windowOn {
        if unusedWindowTime {
          adjustCounter := adjustCounter - 1;
        } else {
          adjustCounter := adjustCounter + 1;
        }
      }
      if canSend && !windowOn {
        if adjustCounter <= -config.adjustmentPeriod {
          Shrink(now);
          adjustCounter := 0;
        }
        if adjustCounter >= config.adjustmentPeriod {
          Expand(now);
          adjustCounter := 0;
        }
      }
      if !canSend {
        windowOn := false;
        unusedWindowTime := false;
        ClearFrameCounts();
      } else {
        windowOn := true;
      }
    }

    /** _sky_tx_pick_vc */
    method Pick(now: int, wants: seq<bool>) returns (vc: int)
      requires Valid() && |wants| == SKY_NUM_VIRTUAL_CHANNELS
      ensures vc == PickVc(config, View(), now, wants)
    {
      for i := 0 to SKY_NUM_VIRTUAL_CHANNELS
        invariant FirstWanting(roundRobinStart, wants, 0) == FirstWanting(roundRobinStart, wants, i)
      {
        vc := (roundRobinStart + i) % SKY_NUM_VIRTUAL_CHANNELS;
        if wants[vc] {
          return vc;
        }
      }
      var idle := NeedsIdleFrame(now);
      return if idle then 0 else -1;
    }

    /** The decisions of sky_tx before a frame is built. */
    method BeginTransmit(now: int, wants: seq<bool>) returns (vc: int)
      requires Valid() && |wants| == SKY_NUM_VIRTUAL_CHANNELS
      modifies this, framesPerVc
      ensures Valid() && (View(), vc) == Gate(config, old(View()), now, wants)
    {
      hide WrapTime;
      var canSend := MayTransmit(now);
      vc := Pick(now, wants);
      TrackTddState(canSend, vc >= 0, now);
      if !canSend || vc < 0 {
        return -1;
      }
      roundRobinStart := (roundRobinStart + 1) % SKY_NUM_VIRTUAL_CHANNELS;
    }

    /** The counters that sky_tx increments when the frame is made. */
    method EndTransmit(vc: nat)
      requires Valid() && vc < SKY_NUM_VIRTUAL_CHANNELS
      modifies this, framesPerVc
      ensures Valid() && View() == CountFrame(old(View()), vc)
    {
      totalFrames := (totalFrames + 1) % 0x1_0000;
      framesPerVc[vc] := (framesPerVc[vc] as int + 1) % 0x1_0000;
    }
  }
}
