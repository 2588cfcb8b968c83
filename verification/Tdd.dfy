/** Properties of medium access: window limits and fairness over all runs. */
module Tdd {
  import opened MacSpec

  // ------------------------------------------------------------------------------ runs

  datatype Event =
    | Transmit(now: int, wants: seq<bool>, filled: bool)
    | Belief(now: int, receiveTime: int, length: int, remaining: int)
    | Carrier(now: int)
    | Reset(now: int)
    | Shift(ticks: int)

  predicate EventOk(e: Event) {
    e.Transmit? ==> |e.wants| == SKY_NUM_VIRTUAL_CHANNELS
  }

  /** A transmission that happened: the channel it went to and what the channels wanted. */
  datatype Sent = Sent(vc: int, wants: seq<bool>)

  function After(cfg: MacConfig, m: MacState, e: Event): (r: (MacState, seq<Sent>))
    requires ConfigOk(cfg) && MacOk(cfg, m) && EventOk(e)
    ensures MacOk(cfg, r.0)
  {
    match e
    case Transmit(now, wants, filled) =>
      var (m1, vc) := Gate(cfg, m, now, wants);
      if vc < 0 then (m1, [])
      else (if filled then CountFrame(m1, vc) else m1, [Sent(vc, wants)])
    case Belief(now, receiveTime, length, remaining) =>
      (UpdateBelief(cfg, m, now, receiveTime, length, remaining), [])
    case Carrier(now) => (CarrierSensed(cfg, m, now), [])
    case Reset(now) => (ResetWindow(cfg, m, now), [])
    case Shift(ticks) => (ShiftWindowing(m, ticks), [])
  }

  /** The state after a run and all its transmissions.  That the window limits hold in
      every reachable state is the postcondition. */
  function Run(cfg: MacConfig, m: MacState, events: seq<Event>): (r: (MacState, seq<Sent>))
    requires ConfigOk(cfg) && MacOk(cfg, m) && forall e :: e in events ==> EventOk(e)
    ensures MacOk(cfg, r.0)
  {
    if events == [] then (m, [])
    else
      var last := |events| - 1;
      assert events[last] in events;
      var (m1, sent) := Run(cfg, m, events[..last]);
      var (m2, more) := After(cfg, m1, events[last]);
      (m2, sent + more)
  }

  // -------------------------------------------------------------------------- fairness

  /** The channel whose turn it is gets the transmission if it wants it. */
  ghost predicate TurnTaken(start: nat, k: nat, s: Sent) {
    && |s.wants| == SKY_NUM_VIRTUAL_CHANNELS
    && (s.wants[(start + k) % SKY_NUM_VIRTUAL_CHANNELS] ==> s.vc == (start + k) % SKY_NUM_VIRTUAL_CHANNELS)
  }

  lemma OneEvent(cfg: MacConfig, m: MacState, e: Event, start: nat, k: nat)
    requires ConfigOk(cfg) && MacOk(cfg, m) && EventOk(e) && m.roundRobin == (start + k) % SKY_NUM_VIRTUAL_CHANNELS
    ensures var (m', more) := After(cfg, m, e);
            && |more| <= 1 && m'.roundRobin == (start + k + |more|) % SKY_NUM_VIRTUAL_CHANNELS
            && (|more| == 1 ==> TurnTaken(start, k, more[0]))
  {
    hide WrapTime, CanSend, IdleFrameNeeded, TimeToOwnWindow;
  }

  lemma {:induction false} TurnsTaken(cfg: MacConfig, m: MacState, events: seq<Event>)
    requires ConfigOk(cfg) && MacOk(cfg, m) && forall e :: e in events ==> EventOk(e)
    ensures var (m', sent) := Run(cfg, m, events);
            && m'.roundRobin == (m.roundRobin + |sent|) % SKY_NUM_VIRTUAL_CHANNELS
            && forall k :: 0 <= k < |sent| ==> TurnTaken(m.roundRobin, k, sent[k])
  {
    hide After, TurnTaken, ConfigOk;
    if events != [] {
      var last := |events| - 1;
      assert events[last] in events;
      TurnsTaken(cfg, m, events[..last]);
      var (m1, sent) := Run(cfg, m, events[..last]);
      OneEvent(cfg, m1, events[last], m.roundRobin, |sent|);
    }
  }

  /** Among any four consecutive transmissions of any run there is one of every channel
      that wanted to send at each of them. */
  lemma EveryChannelServed(cfg: MacConfig, m: MacState, events: seq<Event>, k: nat, vc: nat)
    requires ConfigOk(cfg) && MacOk(cfg, m) && forall e :: e in events ==> EventOk(e)
    requires vc < SKY_NUM_VIRTUAL_CHANNELS
    requires var sent := Run(cfg, m, events).1;
             && k + SKY_NUM_VIRTUAL_CHANNELS <= |sent|
             && forall j :: k <= j < k + SKY_NUM_VIRTUAL_CHANNELS ==> vc < |sent[j].wants| && sent[j].wants[vc]
    ensures var sent := Run(cfg, m, events).1;
            exists j :: k <= j < k + SKY_NUM_VIRTUAL_CHANNELS && sent[j].vc == vc
  {
    hide Run;
    TurnsTaken(cfg, m, events);
    var sent := Run(cfg, m, events).1;
    var j := k + (vc - m.roundRobin - k) % SKY_NUM_VIRTUAL_CHANNELS;
    assert TurnTaken(m.roundRobin, j, sent[j]);
    assert (m.roundRobin + j) % SKY_NUM_VIRTUAL_CHANNELS == vc;
  }

  /** Frames are produced only inside the own window, and none is refused there. */
  lemma OnlyInOwnWindow(cfg: MacConfig, m: MacState, now: int, wants: seq<bool>, filled: bool)
    requires ConfigOk(cfg) && MacOk(cfg, m) && |wants| == SKY_NUM_VIRTUAL_CHANNELS
    ensures After(cfg, m, Transmit(now, wants, filled)).1 != [] <==>
            CanSend(cfg, m, now) && (true in wants || IdleFrameNeeded(cfg, m, now))
  {
    var r := m.roundRobin;
    if true in wants {
      var vc :| 0 <= vc < |wants| && wants[vc];
      var i := (vc - r) % SKY_NUM_VIRTUAL_CHANNELS;
      assert (r + i) % SKY_NUM_VIRTUAL_CHANNELS == vc;
      SomeoneWanting(r, wants, 0, i);
    }
  }

  lemma {:induction false} SomeoneWanting(start: nat, wants: seq<bool>, i: nat, j: nat)
    requires |wants| == SKY_NUM_VIRTUAL_CHANNELS && i <= j < SKY_NUM_VIRTUAL_CHANNELS
    requires wants[(start + j) % SKY_NUM_VIRTUAL_CHANNELS]
    ensures FirstWanting(start, wants, i) >= 0
    decreases j - i
  {
    if i < j && !wants[(start + i) % SKY_NUM_VIRTUAL_CHANNELS] {
      SomeoneWanting(start, wants, i + 1, j);
    }
  }
}
