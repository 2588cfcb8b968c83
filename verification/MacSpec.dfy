/** The abstract behaviour of TDD medium access (src/mac.c, src/skylink_tx.c:21-154). */
module MacSpec {
  import opened Base
  import opened Utilities

  const SKY_NUM_VIRTUAL_CHANNELS := 4

  datatype MacConfig = MacConfig(
    maxWindow: int,
    minWindow: int,
    gap: int,
    tail: int,
    idleTimeout: int,
    increment: int,
    carrierSense: int,
    adjustmentPeriod: int,
    idleFrames: int)

  function Max(a: int, b: int): int {
    if a >= b then a else b
  }

  function Clamp(x: int, low: int, high: int): int {
    if x < low then low else if x > high then high else x
  }

  /** The configuration that sky_mac_create works with. */
  function Sanitized(cfg: MacConfig): MacConfig {
    cfg.(maxWindow := Max(cfg.maxWindow, cfg.minWindow),
         idleFrames := Min(cfg.idleFrames, 3),
         idleTimeout := if cfg.idleTimeout < 5000 || cfg.idleTimeout > 90000 then 25000 else cfg.idleTimeout,
         carrierSense := Min(cfg.carrierSense, cfg.minWindow + cfg.gap),
         adjustmentPeriod := Clamp(cfg.adjustmentPeriod, 1, 4))
  }

  /** What the arithmetic relies on: windows are not empty and nothing is negative. */
  ghost predicate ConfigOk(cfg: MacConfig) {
    && 1 <= cfg.minWindow <= cfg.maxWindow && 0 <= cfg.gap && 0 <= cfg.tail && 0 <= cfg.increment
    && cfg.carrierSense <= cfg.minWindow + cfg.gap
    && 1 <= cfg.adjustmentPeriod <= 4
  }

  lemma SanitizedOk(cfg: MacConfig)
    requires 1 <= cfg.minWindow && 0 <= cfg.gap && 0 <= cfg.tail && 0 <= cfg.increment
    ensures ConfigOk(Sanitized(cfg))
  {
  }

  datatype MacState = MacState(
    t0: int,
    my: int,
    peer: int,
    lastBelief: int,
    adjust: int,
    roundRobin: nat,
    windowOn: bool,
    unused: bool,
    framesPerVc: seq<uint16>,
    totalFrames: uint16)

  /** Both windows stay within the configured limits. */
  ghost predicate MacOk(cfg: MacConfig, m: MacState) {
    && cfg.minWindow <= m.my <= cfg.maxWindow
    && cfg.minWindow <= m.peer <= cfg.maxWindow
    && 0 <= m.t0 < MOD_TIME_TICKS
    && m.roundRobin < SKY_NUM_VIRTUAL_CHANNELS
    && |m.framesPerVc| == SKY_NUM_VIRTUAL_CHANNELS
  }

  const NO_FRAMES: seq<uint16> := [0, 0, 0, 0]

  function MacCreated(cfg: MacConfig): MacState {
    MacState(0, cfg.minWindow, cfg.minWindow, MOD_TIME_TICKS - 300000, 0, 0, false, false, NO_FRAMES, 0)
  }

  // ----------------------------------------------------------------- reading the cycle

  /** wrap_time_ticks */
  function WrapTime(x: int): (r: int)
    ensures 0 <= r < MOD_TIME_TICKS
  {
    x % MOD_TIME_TICKS
  }

  function Cycle(cfg: MacConfig, m: MacState): int {
    m.my + cfg.gap + m.peer + cfg.tail
  }

  /** How far into the current cycle it is, counted from the opening of the own window. */
  function Phase(cfg: MacConfig, m: MacState, now: int): int
    requires Cycle(cfg, m) > 0
  {
    WrapTime(now - m.t0) % Cycle(cfg, m)
  }

  function TimeToOwnWindow(cfg: MacConfig, m: MacState, now: int): int
    requires Cycle(cfg, m) > 0
  {
    if Phase(cfg, m, now) < m.my then 0 else Cycle(cfg, m) - Phase(cfg, m, now)
  }

  function OwnRemaining(cfg: MacConfig, m: MacState, now: int): int
    requires Cycle(cfg, m) > 0
  {
    m.my - Phase(cfg, m, now)
  }

  function PeerRemaining(cfg: MacConfig, m: MacState, now: int): int
    requires Cycle(cfg, m) > 0
  {
    m.peer - WrapTime(now - (m.t0 + m.my + cfg.gap)) % Cycle(cfg, m)
  }

  predicate CanSend(cfg: MacConfig, m: MacState, now: int)
    requires Cycle(cfg, m) > 0
  {
    OwnRemaining(cfg, m, now) > 0
  }

  /** The window and remaining fields of the TDD extension (mac_set_frame_fields). */
  function TddFields(cfg: MacConfig, m: MacState, now: int): (uint16, uint16)
    requires Cycle(cfg, m) > 0
  {
    (m.my % 0x1_0000, Max(OwnRemaining(cfg, m, now), 1) % 0x1_0000)
  }

  predicate IdleFrameNeeded(cfg: MacConfig, m: MacState, now: int) {
    && cfg.idleFrames != 0
    && WrapTime(now - m.lastBelief) <= cfg.idleTimeout
    && m.totalFrames < cfg.idleFrames
  }

  // ---------------------------------------------------------------- moving the windows

  /** A cycle begins right now. */
  function Restarted(cfg: MacConfig, m: MacState, now: int): MacState {
    m.(t0 := WrapTime(now - Cycle(cfg, m)))
  }

  function ShiftWindowing(m: MacState, shift: int): MacState {
    m.(t0 := WrapTime(m.t0 - Abs(shift)))
  }

  function ExpandWindow(cfg: MacConfig, m: MacState, now: int): MacState {
    Restarted(cfg, m.(my := Min(m.my + cfg.increment, cfg.maxWindow)), now)
  }

  function ShrinkWindow(cfg: MacConfig, m: MacState, now: int): MacState {
    Restarted(cfg, m.(my := Max(m.my - cfg.increment, cfg.minWindow)), now)
  }

  function ResetWindow(cfg: MacConfig, m: MacState, now: int): MacState {
    Restarted(cfg, m.(my := cfg.minWindow, adjust := 0), now)
  }

  function CarrierSensed(cfg: MacConfig, m: MacState, now: int): MacState
    requires Cycle(cfg, m) > 0
  {
    if TimeToOwnWindow(cfg, m, now) <= cfg.carrierSense then
      m.(t0 := WrapTime(now - Cycle(cfg, m) + cfg.carrierSense))
    else m
  }

  function UpdateBelief(cfg: MacConfig, m: MacState, now: int, receiveTime: int, length: int,
      remaining: int): MacState {
    var window := Clamp(length, cfg.minWindow, cfg.maxWindow);
    var left := Min(remaining, window);
    var later := if now < receiveTime then receiveTime + WrapTime(now - receiveTime) else now;
    var m1 := m.(lastBelief := now, peer := window, totalFrames := 0, framesPerVc := NO_FRAMES);
    var back := cfg.tail - Cycle(cfg, m1);
    m1.(t0 := WrapTime(Max(receiveTime + left + back, later + back)))
  }

  // ---------------------------------------------------------------------- transmitting

  /** _sky_tx_track_tdd_state */
  function Track(cfg: MacConfig, m: MacState, canSend: bool, content: bool, now: int): MacState {
    var m1 := if canSend && !content then m.(unused := true) else m;
    if !canSend then
      var m2 := if m1.windowOn then m1.(adjust := if m1.unused then m1.adjust - 1 else m1.adjust + 1) else m1;
      m2.(windowOn := false, unused := false, framesPerVc := NO_FRAMES, totalFrames := 0)
    else
      var shrink := !m1.windowOn && m1.adjust <= -cfg.adjustmentPeriod;
      var m2 := if shrink then ShrinkWindow(cfg, m1, now).(adjust := 0) else m1;
      var expand := !m1.windowOn && m2.adjust >= cfg.adjustmentPeriod;
      var m3 := if expand then ExpandWindow(cfg, m2, now).(adjust := 0) else m2;
      m3.(windowOn := true)
  }

  /** The first of the channels start, start + 1, ... that wants to send. */
  function FirstWanting(start: nat, wants: seq<bool>, i: nat): (vc: int)
    requires |wants| == SKY_NUM_VIRTUAL_CHANNELS && i <= SKY_NUM_VIRTUAL_CHANNELS
    ensures -1 <= vc < SKY_NUM_VIRTUAL_CHANNELS && (vc >= 0 ==> wants[vc])
    decreases SKY_NUM_VIRTUAL_CHANNELS - i
  {
    if i == SKY_NUM_VIRTUAL_CHANNELS then -1
    else if wants[(start + i) % SKY_NUM_VIRTUAL_CHANNELS] then (start + i) % SKY_NUM_VIRTUAL_CHANNELS
    else FirstWanting(start, wants, i + 1)
  }

  /** _sky_tx_pick_vc; wants[vc] says that the channel has content or an HMAC sequence to enforce. */
  function PickVc(cfg: MacConfig, m: MacState, now: int, wants: seq<bool>): (vc: int)
    requires |wants| == SKY_NUM_VIRTUAL_CHANNELS
    ensures -1 <= vc < SKY_NUM_VIRTUAL_CHANNELS
  {
    var vc := FirstWanting(m.roundRobin, wants, 0);
    if vc < 0 && IdleFrameNeeded(cfg, m, now) then 0 else vc
  }

  /** The decisions of sky_tx: the channel that transmits now, or -1. */
  function Gate(cfg: MacConfig, m: MacState, now: int, wants: seq<bool>): (r: (MacState, int))
    requires Cycle(cfg, m) > 0 && |wants| == SKY_NUM_VIRTUAL_CHANNELS
    ensures -1 <= r.1 < SKY_NUM_VIRTUAL_CHANNELS
  {
    var vc := PickVc(cfg, m, now, wants);
    var m1 := Track(cfg, m, CanSend(cfg, m, now), vc >= 0, now);
    if !CanSend(cfg, m, now) || vc < 0 then (m1, -1)
    else (m1.(roundRobin := (m1.roundRobin + 1) % SKY_NUM_VIRTUAL_CHANNELS), vc)
  }

  /** The counters after a frame has been made for channel vc. */
  function CountFrame(m: MacState, vc: nat): MacState
    requires vc < |m.framesPerVc|
  {
    m.(totalFrames := (m.totalFrames + 1) % 0x1_0000,
       framesPerVc := m.framesPerVc[vc := (m.framesPerVc[vc] as int + 1) % 0x1_0000])
  }
}
