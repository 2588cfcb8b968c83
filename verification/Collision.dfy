/** Two peers that share one frequency: when do they never transmit at the same time?
    Every peer has a clock of its own, which wraps around after 2^24 ticks; `off` is what
    that clock is ahead of true time. */
module Collision {
  import opened Base
  import opened Utilities
  import opened MacSpec

  function Clock(off: int, t: int): int {
    WrapTime(t + off)
  }

  lemma ClockShift(off: int, t: int, k: int)
    ensures WrapTime(Clock(off, t) + k) == Clock(off, t + k)
  {
    ModAdd(t + off, k, MOD_TIME_TICKS);
  }

  lemma ClockDifference(off: int, from: int, to: int)
    requires from <= to < from + MOD_TIME_TICKS
    ensures WrapTime(Clock(off, to) - Clock(off, from)) == to - from
  {
    ModSub(to + off, from + off, MOD_TIME_TICKS);
  }

  /** Cycles of this peer are counted from true time `start`, which is no more than one
      round of its clock ago. */
  ghost predicate Counting(m: MacState, off: int, start: int, t: int) {
    m.t0 == Clock(off, start) && start <= t < start + MOD_TIME_TICKS
  }

  /** Is a window of w ticks, opening every c ticks and once at `start`, open at t? */
  predicate Open(start: int, w: int, c: int, t: int)
    requires c > 0
  {
    (t - start) % c < w
  }

  lemma SendsWhenOpen(cfg: MacConfig, m: MacState, off: int, start: int, t: int)
    requires ConfigOk(cfg) && MacOk(cfg, m) && Counting(m, off, start, t)
    ensures OwnRemaining(cfg, m, Clock(off, t)) == m.my - (t - start) % Cycle(cfg, m)
    ensures CanSend(cfg, m, Clock(off, t)) <==> Open(start, m.my, Cycle(cfg, m), t)
  {
    ClockDifference(off, start, t);
  }

  // --------------------------------------------------------------- two periodic windows

  /** The second window opens no earlier than the first closes, and closes no later than
      the first opens again. */
  predicate Apart(a: int, wa: int, b: int, wb: int, c: int)
    requires c > 0
  {
    wa <= (b - a) % c <= c - wb
  }

  lemma ApartNeverBoth(a: int, wa: int, b: int, wb: int, c: int, t: int)
    requires c > 0 && Apart(a, wa, b, wb, c)
    ensures !(Open(a, wa, c, t) && Open(b, wb, c, t))
  {
    var x, d := (t - a) % c, (b - a) % c;
    ModSub(t - a, b - a, c);
    assert (t - b) % c == (x - d) % c;
    if x < wa {
      assert x < d;
      ModShift(x - d, c);
      ModSmall(x - d + c, c);
    }
  }

  lemma Opposite(a: int, b: int, c: int)
    requires c > 0 && (b - a) % c > 0
    ensures (a - b) % c == c - (b - a) % c
  {
    var d := (b - a) % c;
    ModSub(0, b - a, c);
    ModSmall(0, c);
    ModShift(-d, c);
    ModSmall(c - d, c);
  }

  lemma ApartSymmetric(a: int, wa: int, b: int, wb: int, c: int)
    requires c > 0 && wa > 0 && Apart(a, wa, b, wb, c)
    ensures Apart(b, wb, a, wa, c)
  {
    Opposite(a, b, c);
  }

  /** Over any time of at least a whole cycle, two windows are never both open exactly if
      they are apart. */
  lemma NeverBothIffApart(a: int, wa: int, b: int, wb: int, c: int, from: int, until: int)
    requires c > 0 && wa > 0 && wb > 0 && from + c <= until
    ensures (forall t :: from <= t < until ==> !(Open(a, wa, c, t) && Open(b, wb, c, t))) <==> Apart(a, wa, b, wb, c)
  {
    if Apart(a, wa, b, wb, c) {
      forall t | from <= t < until ensures !(Open(a, wa, c, t) && Open(b, wb, c, t)) {
        ApartNeverBoth(a, wa, b, wb, c, t);
      }
    } else if (b - a) % c < wa {
      var t := NextOpening(b, c, from);
      SamePhase(a, b, t, c);
      assert Open(a, wa, c, t) && Open(b, wb, c, t);
    } else {
      var t := NextOpening(a, c, from);
      SamePhase(b, a, t, c);
      Opposite(a, b, c);
      assert Open(a, wa, c, t) && Open(b, wb, c, t);
    }
  }

  lemma NextOpening(start: int, c: int, from: int) returns (t: int)
    requires c > 0
    ensures from <= t < from + c && (t - start) % c == 0
  {
    t := from + (start - from) % c;
    ModAdd(start - from, from - start, c);
    ModSmall(0, c);
  }

  lemma SamePhase(a: int, b: int, t: int, c: int)
    requires c > 0 && (t - b) % c == 0
    ensures (t - a) % c == (b - a) % c
  {
    ModAdd(t - b, b - a, c);
  }

  // ------------------------------------------------------------------------ one exchange

  /** The receiver learns of the sender's window: the frame left at true time ts, its start
      was detected at tr, and it is processed at tn. */
  datatype Reception = Reception(ts: int, tr: int, tn: int)

  predicate ReceptionOk(x: Reception) {
    x.ts <= x.tr <= x.tn < x.tr + MOD_TIME_TICKS
  }

  /** How much later than the sender's window ends the receiver believes it ends. */
  function Lateness(x: Reception, remaining: int): int {
    Max(x.tr - x.ts, x.tn - x.ts - remaining)
  }

  /** Where the receiver's count of cycles starts after the update. */
  function NewStart(cfg: MacConfig, x: Reception, remaining: int, cycle: int): int {
    Max(x.tr + remaining, x.tn) + cfg.tail - cycle
  }

  lemma BeliefStarts(cfg: MacConfig, m: MacState, off: int, x: Reception, length: int, remaining: int)
    requires ConfigOk(cfg) && MacOk(cfg, m) && ReceptionOk(x)
    requires cfg.minWindow <= length <= cfg.maxWindow && 0 <= remaining <= length
    ensures var m' := UpdateBelief(cfg, m, Clock(off, x.tn), Clock(off, x.tr), length, remaining);
            && MacOk(cfg, m') && m'.peer == length && m'.my == m.my
            && m'.t0 == Clock(off, NewStart(cfg, x, remaining, Cycle(cfg, m')))
            && NewStart(cfg, x, remaining, Cycle(cfg, m')) <= x.tn
  {
    hide WrapTime;
    var receive, now := Clock(off, x.tr), Clock(off, x.tn);
    ClockDifference(off, x.tr, x.tn);
    var later := if now < receive then receive + WrapTime(now - receive) else now;
    assert later == receive + (x.tn - x.tr) by {
      if now >= receive { NoWrap(off, x.tr, x.tn); }
    }
    var m' := UpdateBelief(cfg, m, now, receive, length, remaining);
    var k := Max(remaining, x.tn - x.tr) + cfg.tail - Cycle(cfg, m');
    ClockShift(off, x.tr, k);
  }

  lemma NoWrap(off: int, from: int, to: int)
    requires from <= to < from + MOD_TIME_TICKS && Clock(off, from) <= Clock(off, to)
    ensures Clock(off, to) - Clock(off, from) == to - from
  {
    ClockDifference(off, from, to);
  }

  /** A sender whose window is open, and a receiver that the sender knows the window
      length of. */
  ghost predicate Sending(cfg: MacConfig, a: MacState, b: MacState, off: int, start: int, ts: int) {
    && ConfigOk(cfg) && MacOk(cfg, a) && MacOk(cfg, b) && a.peer == b.my && a.my < 0x1_0000
    && Counting(a, off, start, ts) && CanSend(cfg, a, Clock(off, ts))
  }

  /** The receiver's state after it has processed the frame. */
  function Received(cfg: MacConfig, a: MacState, offA: int, b: MacState, offB: int, x: Reception): MacState
    requires Cycle(cfg, a) > 0
  {
    var (window, remaining) := TddFields(cfg, a, Clock(offA, x.ts));
    UpdateBelief(cfg, b, Clock(offB, x.tn), Clock(offB, x.tr), window, remaining)
  }

  lemma SentFields(cfg: MacConfig, a: MacState, b: MacState, off: int, start: int, ts: int)
    requires Sending(cfg, a, b, off, start, ts)
    ensures var remaining := OwnRemaining(cfg, a, Clock(off, ts));
            && TddFields(cfg, a, Clock(off, ts)) == (a.my, remaining) && 1 <= remaining <= a.my
            && remaining == a.my - (ts - start) % Cycle(cfg, a)
  {
    SendsWhenOpen(cfg, a, off, start, ts);
  }

  /** How the receiver's windows lie relative to the sender's. */
  lemma ReceivedPhase(cfg: MacConfig, a: MacState, b: MacState, offA: int, offB: int, startA: int, x: Reception)
    requires Sending(cfg, a, b, offA, startA, x.ts) && ReceptionOk(x)
    ensures var b' := Received(cfg, a, offA, b, offB, x);
            var remaining := OwnRemaining(cfg, a, Clock(offA, x.ts));
            var startB := NewStart(cfg, x, remaining, Cycle(cfg, a));
            && MacOk(cfg, b') && b'.my == b.my && b'.peer == a.my && Cycle(cfg, b') == Cycle(cfg, a)
            && b'.t0 == Clock(offB, startB) && startB <= x.tn
            && (startB - startA) % Cycle(cfg, a) == (a.my + cfg.tail + Lateness(x, remaining)) % Cycle(cfg, a)
  {
    hide Clock;
    var c := Cycle(cfg, a);
    SentFields(cfg, a, b, offA, startA, x.ts);
    var remaining := OwnRemaining(cfg, a, Clock(offA, x.ts));
    BeliefStarts(cfg, b, offB, x, a.my, remaining);
    var startB := NewStart(cfg, x, remaining, c);
    assert startB - startA == (x.ts - startA) + remaining + Lateness(x, remaining) + cfg.tail - c;
    PhaseAfter(x.ts - startA, a.my, Lateness(x, remaining) + cfg.tail, c);
  }

  /** From phase y the window has w - y % c ticks left; counted from its end on, the phase
      is w more. */
  lemma PhaseAfter(y: int, w: int, k: int, c: int)
    requires c > 0
    ensures (y + (w - y % c) + k - c) % c == (w + k) % c
  {
    ModAdd(y, w - y % c + k - c, c);
    ModShift(w + k - c, c);
  }

  /** If the lateness is at most the gap, the two never transmit at the same time, at any
      later tick up to the wrap-around of either count. */
  lemma NeverBothSend(cfg: MacConfig, a: MacState, b: MacState, offA: int, offB: int, startA: int, x: Reception,
      t: int)
    requires Sending(cfg, a, b, offA, startA, x.ts) && ReceptionOk(x)
    requires var remaining := OwnRemaining(cfg, a, Clock(offA, x.ts));
             && Lateness(x, remaining) <= cfg.gap
             && x.tn <= t < startA + MOD_TIME_TICKS && t < NewStart(cfg, x, remaining, Cycle(cfg, a)) + MOD_TIME_TICKS
    ensures var b' := Received(cfg, a, offA, b, offB, x);
            Cycle(cfg, b') > 0 && !(CanSend(cfg, a, Clock(offA, t)) && CanSend(cfg, b', Clock(offB, t)))
  {
    hide Clock;
    ReceivedPhase(cfg, a, b, offA, offB, startA, x);
    var remaining := OwnRemaining(cfg, a, Clock(offA, x.ts));
    var c := Cycle(cfg, a);
    var startB := NewStart(cfg, x, remaining, c);
    ModSmall(a.my + cfg.tail + Lateness(x, remaining), c);
    ApartNeverBoth(startA, a.my, startB, b.my, c, t);
    SendsWhenOpen(cfg, a, offA, startA, t);
    SendsWhenOpen(cfg, Received(cfg, a, offA, b, offB, x), offB, startB, t);
  }

  /** Neither of two peers transmits while the other may. */
  ghost predicate Quiet(cfg: MacConfig, a: MacState, offA: int, b: MacState, offB: int, from: int, until: int)
    requires Cycle(cfg, a) > 0 && Cycle(cfg, b) > 0
  {
    forall t :: from <= t < until ==> !(CanSend(cfg, a, Clock(offA, t)) && CanSend(cfg, b, Clock(offB, t)))
  }

  /** Two peers that count from startA and startB and agree on the cycle are quiet over a
      whole cycle or more exactly if their windows are apart. */
  lemma QuietIffApart(cfg: MacConfig, a: MacState, offA: int, startA: int, b: MacState, offB: int, startB: int,
                      from: int, until: int)
    requires ConfigOk(cfg) && MacOk(cfg, a) && MacOk(cfg, b) && Cycle(cfg, a) == Cycle(cfg, b)
    requires a.t0 == Clock(offA, startA) && startA <= from && until <= startA + MOD_TIME_TICKS
    requires b.t0 == Clock(offB, startB) && startB <= from && until <= startB + MOD_TIME_TICKS
    requires from + Cycle(cfg, a) <= until
    ensures Quiet(cfg, a, offA, b, offB, from, until) <==> Apart(startA, a.my, startB, b.my, Cycle(cfg, a))
  {
    hide Clock, CanSend, Open, Apart;
    var c := Cycle(cfg, a);
    forall t | from <= t < until
      ensures CanSend(cfg, a, Clock(offA, t)) <==> Open(startA, a.my, c, t)
      ensures CanSend(cfg, b, Clock(offB, t)) <==> Open(startB, b.my, c, t)
    {
      SendsWhenOpen(cfg, a, offA, startA, t);
      SendsWhenOpen(cfg, b, offB, startB, t);
    }
    NeverBothIffApart(startA, a.my, startB, b.my, c, from, until);
  }

  /** The exact condition: from processing on, over a whole cycle or more, the two never
      transmit at the same time if and only if the lateness, in cycles, exceeds a whole
      number of them by no more than the gap or falls short of one by no more than the
      tail. */
  lemma LatenessExact(cfg: MacConfig, a: MacState, b: MacState, offA: int, offB: int, startA: int, x: Reception,
                      until: int)
    requires Sending(cfg, a, b, offA, startA, x.ts) && ReceptionOk(x)
    requires var startB := NewStart(cfg, x, OwnRemaining(cfg, a, Clock(offA, x.ts)), Cycle(cfg, a));
             x.tn + Cycle(cfg, a) <= until <= Min(startA, startB) + MOD_TIME_TICKS
    ensures var b' := Received(cfg, a, offA, b, offB, x);
            var c := Cycle(cfg, a);
            var late := Lateness(x, OwnRemaining(cfg, a, Clock(offA, x.ts))) % c;
            && Cycle(cfg, b') > 0
            && (Quiet(cfg, a, offA, b', offB, x.tn, until) <==> late <= cfg.gap || c - cfg.tail <= late)
  {
    hide Clock, Quiet, UpdateBelief;
    ReceivedPhase(cfg, a, b, offA, offB, startA, x);
    var remaining := OwnRemaining(cfg, a, Clock(offA, x.ts));
    var c := Cycle(cfg, a);
    var startB := NewStart(cfg, x, remaining, c);
    QuietIffApart(cfg, a, offA, startA, Received(cfg, a, offA, b, offB, x), offB, startB, x.tn, until);
    ApartByLateness(a.my, cfg.gap, b.my, cfg.tail, Lateness(x, remaining));
  }

  lemma ApartByLateness(my: int, gap: int, peer: int, tail: int, late: int)
    requires my > 0 && gap >= 0 && peer > 0 && tail >= 0
    ensures var c := my + gap + peer + tail;
            my <= (my + tail + late) % c <= c - peer <==> late % c <= gap || c - tail <= late % c
  {
    var c := my + gap + peer + tail;
    var l := late % c;
    ModAdd(late, my + tail, c);
    if my + tail + l < c {
      ModSmall(my + tail + l, c);
    } else {
      ModShift(my + tail + l - c, c);
      ModSmall(my + tail + l - c, c);
    }
  }

  /** The receiver's picture of the sender's window is the sender's own, delayed by the
      lateness. */
  lemma PeerWindowSeen(cfg: MacConfig, a: MacState, b: MacState, offA: int, offB: int, startA: int, x: Reception,
      t: int)
    requires Sending(cfg, a, b, offA, startA, x.ts) && ReceptionOk(x)
    requires var remaining := OwnRemaining(cfg, a, Clock(offA, x.ts));
             && x.tn <= t < NewStart(cfg, x, remaining, Cycle(cfg, a)) + MOD_TIME_TICKS
             && startA <= t - Lateness(x, remaining) < startA + MOD_TIME_TICKS
    ensures var b' := Received(cfg, a, offA, b, offB, x);
            var late := Lateness(x, OwnRemaining(cfg, a, Clock(offA, x.ts)));
            Cycle(cfg, b') > 0 && PeerRemaining(cfg, b', Clock(offB, t)) == OwnRemaining(cfg, a, Clock(offA,
                t - late))
  {
    hide WrapTime;
    ReceivedPhase(cfg, a, b, offA, offB, startA, x);
    SentFields(cfg, a, b, offA, startA, x.ts);
    var remaining := OwnRemaining(cfg, a, Clock(offA, x.ts));
    var c := Cycle(cfg, a);
    var late := Lateness(x, remaining);
    var startB := NewStart(cfg, x, remaining, c);
    var peerStart := startB + b.my + cfg.gap;
    PeerStartWraps(offB, startB, b.my + cfg.gap, t);
    SendsWhenOpen(cfg, a, offA, startA, t - late);
    assert t - peerStart == (t - late - startA) - (x.ts - startA) + (x.ts - startA) % c by {
      assert startB == x.ts + remaining + late + cfg.tail - c;
    }
    WholeCyclesBack(t - late - startA, x.ts - startA, c);
  }

  lemma PeerStartWraps(off: int, start: int, k: int, t: int)
    requires start + k <= t < start + k + MOD_TIME_TICKS
    ensures WrapTime(Clock(off, t) - (Clock(off, start) + k)) == t - (start + k)
  {
    ModSub(t + off, start + off, MOD_TIME_TICKS);
    ModAdd(Clock(off, t) - Clock(off, start), -k, MOD_TIME_TICKS);
    ModAdd(t - start, -k, MOD_TIME_TICKS);
  }

  lemma WholeCyclesBack(y: int, z: int, c: int)
    requires c > 0
    ensures (y - z + z % c) % c == y % c
  {
    assert y - z + z % c == y + (-(z / c)) * c;
    ModMultiple(y, -(z / c), c);
  }

  // -------------------------------------------------------------------- runs of two peers

  /** Two peers and the true times their counts start from. */
  datatype Link = Link(a: MacState, offA: int, startA: int, b: MacState, offB: int, startB: int, now: int)

  /** Both peers know each other's window, and the windows are apart. */
  ghost predicate Aligned(cfg: MacConfig, l: Link) {
    && ConfigOk(cfg) && cfg.maxWindow < 0x1_0000 && MacOk(cfg, l.a) && MacOk(cfg, l.b)
    && l.a.peer == l.b.my && l.b.peer == l.a.my
    && Counting(l.a, l.offA, l.startA, l.now) && Counting(l.b, l.offB, l.startB, l.now)
    && Apart(l.startA, l.a.my, l.startB, l.b.my, Cycle(cfg, l.a))
  }

  /** Time passes, or a frame of one peer is received by the other after `flight` ticks and
      processed `delay` ticks later.  The sender may have expanded or shrunk its window right
      before, as sky_tx does when the window opens. */
  datatype Step =
    | Wait(ticks: nat)
    | FromA(resize: Resize, flight: nat, delay: nat)
    | FromB(resize: Resize, flight: nat, delay: nat)

  datatype Resize = Keep | Grow | Lessen

  function Resized(cfg: MacConfig, m: MacState, resize: Resize, now: int): MacState {
    match resize
    case Keep => m
    case Grow => ExpandWindow(cfg, m, now)
    case Lessen => ShrinkWindow(cfg, m, now)
  }

  /** The link after `a` has resized its window. */
  function Adjusted(cfg: MacConfig, l: Link, resize: Resize): Link {
    var a := Resized(cfg, l.a, resize, Clock(l.offA, l.now));
    l.(a := a, startA := if resize == Keep then l.startA else l.now - Cycle(cfg, a))
  }

  function Swapped(l: Link): Link {
    Link(l.b, l.offB, l.startB, l.a, l.offA, l.startA, l.now)
  }

  function Delivered(cfg: MacConfig, l: Link, flight: nat, delay: nat): Link
    requires Cycle(cfg, l.a) > 0
  {
    var x := Reception(l.now, l.now + flight, l.now + flight + delay);
    var remaining := OwnRemaining(cfg, l.a, Clock(l.offA, l.now));
    l.(b := Received(cfg, l.a, l.offA, l.b, l.offB, x),
       startB := NewStart(cfg, x, remaining, Cycle(cfg, l.a)),
       now := x.tn)
  }

  /** A peer sends only in its own window, and the frame is no later than the gap allows.  A
      frame that announces another window length is processed before the old window would
      have closed. */
  ghost predicate Allowed(cfg: MacConfig, l: Link, resize: Resize, flight: nat, delay: nat)
    requires Cycle(cfg, l.a) > 0
  {
    var l1 := Adjusted(cfg, l, resize);
    && CanSend(cfg, l.a, Clock(l.offA, l.now)) && delay < MOD_TIME_TICKS
    && Cycle(cfg, l1.a) > 0
    && Max(flight, flight + delay - OwnRemaining(cfg, l1.a, Clock(l.offA, l.now))) <= cfg.gap
    && (resize != Keep ==>
          flight + delay <= OwnRemaining(cfg, l.a, Clock(l.offA, l.now)) && Cycle(cfg, l1.a) < MOD_TIME_TICKS)
  }

  /** One step; neither count of cycles may get as old as a round of the clock. */
  ghost predicate Next(cfg: MacConfig, l: Link, step: Step, l': Link)
    requires Cycle(cfg, l.a) > 0 && Cycle(cfg, l.b) > 0
  {
    && l'.now < l'.startA + MOD_TIME_TICKS && l'.now < l'.startB + MOD_TIME_TICKS
    && match step
       case Wait(ticks) => l' == l.(now := l.now + ticks)
       case FromA(resize, flight, delay) =>
         Allowed(cfg, l, resize, flight, delay) && l' == Delivered(cfg, Adjusted(cfg, l, resize), flight, delay)
       case FromB(resize, flight, delay) =>
         && Allowed(cfg, Swapped(l), resize, flight, delay)
         && l' == Swapped(Delivered(cfg, Adjusted(cfg, Swapped(l), resize), flight, delay))
  }

  /** After resizing the sender is at the start of its window and still knows the
      receiver's. */
  lemma AdjustedSends(cfg: MacConfig, l: Link, resize: Resize, flight: nat, delay: nat)
    requires Aligned(cfg, l) && Allowed(cfg, l, resize, flight, delay)
    ensures var l1 := Adjusted(cfg, l, resize);
            && Sending(cfg, l1.a, l1.b, l1.offA, l1.startA, l1.now)
            && l1 == l.(a := l1.a, startA := l1.startA)
  {
    hide Clock, WrapTime, Apart;
    if resize != Keep {
      var l1 := Adjusted(cfg, l, resize);
      ClockShift(l.offA, l.now, -Cycle(cfg, l1.a));
      RestartOpensWindow(cfg, l1.a, Clock(l.offA, l.now));
      assert l1.a == Restarted(cfg, l1.a, Clock(l.offA, l.now));
    }
  }

  lemma DeliveryKeepsAligned(cfg: MacConfig, l: Link, resize: Resize, flight: nat, delay: nat)
    requires Aligned(cfg, l) && Allowed(cfg, l, resize, flight, delay)
    requires var l' := Delivered(cfg, Adjusted(cfg, l, resize), flight, delay);
             l'.now < l'.startA + MOD_TIME_TICKS && l'.now < l'.startB + MOD_TIME_TICKS
    ensures Aligned(cfg, Delivered(cfg, Adjusted(cfg, l, resize), flight, delay))
  {
    hide Clock, WrapTime, Adjusted;
    var l1 := Adjusted(cfg, l, resize);
    AdjustedSends(cfg, l, resize, flight, delay);
    var x := Reception(l.now, l.now + flight, l.now + flight + delay);
    ReceivedPhase(cfg, l1.a, l1.b, l1.offA, l1.offB, l1.startA, x);
    var remaining := OwnRemaining(cfg, l1.a, Clock(l1.offA, l1.now));
    ModSmall(l1.a.my + cfg.tail + Lateness(x, remaining), Cycle(cfg, l1.a));
  }

  /** While a frame that announces another window length is on its way, the sender already
      works with the new one and the receiver still with the old one; they stay quiet. */
  lemma QuietInFlight(cfg: MacConfig, l: Link, resize: Resize, flight: nat, delay: nat, t: int)
    requires Aligned(cfg, l) && Allowed(cfg, l, resize, flight, delay) && resize != Keep
    requires l.now <= t < l.now + flight + delay && t < l.startA + MOD_TIME_TICKS && t < l.startB + MOD_TIME_TICKS
    ensures var a := Resized(cfg, l.a, resize, Clock(l.offA, l.now));
            && Cycle(cfg, a) > 0
            && !(CanSend(cfg, a, Clock(l.offA, t)) && CanSend(cfg, l.b, Clock(l.offB, t)))
  {
    hide Clock;
    var c := Cycle(cfg, l.a);
    SendsWhenOpen(cfg, l.a, l.offA, l.startA, l.now);
    StillOpen(l.now - l.startA, t - l.now, l.a.my, c);
    ApartNeverBoth(l.startA, l.a.my, l.startB, l.b.my, c, t);
    SendsWhenOpen(cfg, l.b, l.offB, l.startB, t);
  }

  /** k ticks on, with more than k ticks of the window left, it is still open. */
  lemma StillOpen(y: int, k: nat, w: int, c: int)
    requires c > 0 && k < w - y % c && w <= c
    ensures (y + k) % c < w
  {
    ModAdd(y, k, c);
    ModSmall(y % c + k, c);
  }

  lemma SwapKeepsAligned(cfg: MacConfig, l: Link)
    requires Aligned(cfg, l)
    ensures Aligned(cfg, Swapped(l))
  {
    ApartSymmetric(l.startA, l.a.my, l.startB, l.b.my, Cycle(cfg, l.a));
  }

  lemma StepKeepsAligned(cfg: MacConfig, l: Link, step: Step, l': Link)
    requires Aligned(cfg, l) && Next(cfg, l, step, l')
    ensures Aligned(cfg, l')
  {
    hide Clock, WrapTime, Apart;
    match step
    case Wait(_) =>
    case FromA(resize, flight, delay) => DeliveryKeepsAligned(cfg, l, resize, flight, delay);
    case FromB(resize, flight, delay) =>
      SwapKeepsAligned(cfg, l);
      DeliveryKeepsAligned(cfg, Swapped(l), resize, flight, delay);
      SwapKeepsAligned(cfg, Delivered(cfg, Adjusted(cfg, Swapped(l), resize), flight, delay));
  }

  /** A run: the steps taken and the states in between. */
  ghost predicate IsRun(cfg: MacConfig, states: seq<Link>, steps: seq<Step>) {
    && |states| == |steps| + 1
    && forall i :: 0 <= i < |steps| ==>
         && Cycle(cfg, states[i].a) > 0 && Cycle(cfg, states[i].b) > 0
         && Next(cfg, states[i], steps[i], states[i + 1])
  }

  lemma {:induction false} AlignedThroughout(cfg: MacConfig, states: seq<Link>, steps: seq<Step>, i: nat)
    requires IsRun(cfg, states, steps) && Aligned(cfg, states[0]) && i < |states|
    ensures Aligned(cfg, states[i])
  {
    hide Next, Aligned;
    if i > 0 {
      AlignedThroughout(cfg, states, steps, i - 1);
      StepKeepsAligned(cfg, states[i - 1], steps[i - 1], states[i]);
    }
  }

  /** In no state of any run can both peers transmit, however many frames they exchange. */
  lemma QuietRuns(cfg: MacConfig, states: seq<Link>, steps: seq<Step>, i: nat)
    requires IsRun(cfg, states, steps) && Aligned(cfg, states[0]) && i < |states|
    ensures var l := states[i];
            && Cycle(cfg, l.a) > 0 && Cycle(cfg, l.b) > 0
            && !(CanSend(cfg, l.a, Clock(l.offA, l.now)) && CanSend(cfg, l.b, Clock(l.offB, l.now)))
  {
    hide Clock;
    AlignedThroughout(cfg, states, steps, i);
    var l := states[i];
    SendsWhenOpen(cfg, l.a, l.offA, l.startA, l.now);
    SendsWhenOpen(cfg, l.b, l.offB, l.startB, l.now);
    ApartNeverBoth(l.startA, l.a.my, l.startB, l.b.my, Cycle(cfg, l.a), l.now);
  }

  // -------------------------------------------------------------- moving one's own window

  /** Expanding, shrinking and resetting open a full own window at once. */
  lemma RestartOpensWindow(cfg: MacConfig, m: MacState, now: int)
    requires ConfigOk(cfg) && MacOk(cfg, m) && Cycle(cfg, m) < MOD_TIME_TICKS
    ensures OwnRemaining(cfg, Restarted(cfg, m, now), now) == m.my
  {
    var c := Cycle(cfg, m);
    ModSub(now, now - c, MOD_TIME_TICKS);
    ModAdd(now, -WrapTime(now - c), MOD_TIME_TICKS);
    ModSmall(c, MOD_TIME_TICKS);
    ModUnique(c, 1, 0, c);
  }

  /** Sensing a carrier puts the own window carrierSense ticks off, and not less: this is
      what the limit on that setting is for. */
  lemma CarrierPutsOff(cfg: MacConfig, m: MacState, now: int)
    requires ConfigOk(cfg) && MacOk(cfg, m) && Cycle(cfg, m) < MOD_TIME_TICKS
    ensures TimeToOwnWindow(cfg, CarrierSensed(cfg, m, now), now)
            == Max(TimeToOwnWindow(cfg, m, now), cfg.carrierSense)
  {
    var c := Cycle(cfg, m);
    if 0 <= TimeToOwnWindow(cfg, m, now) <= cfg.carrierSense {
      var back := c - cfg.carrierSense;
      ModSub(now, now - back, MOD_TIME_TICKS);
      ModAdd(now, -WrapTime(now - back), MOD_TIME_TICKS);
      ModSmall(back, MOD_TIME_TICKS);
      if cfg.carrierSense == 0 {
        ModUnique(c, 1, 0, c);
      } else {
        ModSmall(back, c);
      }
    }
  }

  // ------------------------------------------------------------ past a round of the clock

  /** After k rounds of the clock the cycles are counted from k rounds later. */
  lemma SameReading(off: int, start: int, k: nat)
    ensures Clock(off, start + k * MOD_TIME_TICKS) == Clock(off, start)
  {
    ModMultiple(start + off, k, MOD_TIME_TICKS);
  }

  lemma AfterRounds(cfg: MacConfig, m: MacState, off: int, start: int, k: nat, t: int)
    requires ConfigOk(cfg) && MacOk(cfg, m) && m.t0 == Clock(off, start)
    requires start + k * MOD_TIME_TICKS <= t < start + (k + 1) * MOD_TIME_TICKS
    ensures OwnRemaining(cfg, m, Clock(off, t)) == m.my - (t - start - k * MOD_TIME_TICKS) % Cycle(cfg, m)
  {
    hide Clock;
    SameReading(off, start, k);
    SendsWhenOpen(cfg, m, off, start + k * MOD_TIME_TICKS, t);
  }

  /** The cycle goes on undisturbed through the second round if and only if it divides
      2^24. */
  lemma WrapAroundJumps(cfg: MacConfig, m: MacState, off: int, start: int)
    requires ConfigOk(cfg) && MacOk(cfg, m) && m.t0 == Clock(off, start)
    ensures (forall t :: start + MOD_TIME_TICKS <= t < start + 2 * MOD_TIME_TICKS ==>
               OwnRemaining(cfg, m, Clock(off, t)) == m.my - (t - start) % Cycle(cfg, m))
            <==> MOD_TIME_TICKS % Cycle(cfg, m) == 0
  {
    hide Clock, OwnRemaining;
    var c := Cycle(cfg, m);
    if MOD_TIME_TICKS % c == 0 {
      forall t | start + MOD_TIME_TICKS <= t < start + 2 * MOD_TIME_TICKS
        ensures OwnRemaining(cfg, m, Clock(off, t)) == m.my - (t - start) % c
      {
        AfterRounds(cfg, m, off, start, 1, t);
        MultipleBack(t - start, MOD_TIME_TICKS, c);
      }
    } else {
      var t := start + MOD_TIME_TICKS;
      AfterRounds(cfg, m, off, start, 1, t);
      ModSmall(0, c);
      assert OwnRemaining(cfg, m, Clock(off, t)) != m.my - (t - start) % c;
    }
  }

  lemma MultipleBack(x: int, n: int, c: int)
    requires c > 0 && n % c == 0
    ensures (x - n) % c == x % c
  {
    assert x - n == x + (-(n / c)) * c;
    ModMultiple(x, -(n / c), c);
  }

  /** The exact condition for two peers at any age: once the one count is kA and the other
      kB rounds old, they are quiet if and only if their windows, moved on by that many
      rounds, are apart. */
  lemma QuietPastWrap(cfg: MacConfig, a: MacState, offA: int, startA: int, kA: nat,
                      b: MacState, offB: int, startB: int, kB: nat, from: int, until: int)
    requires ConfigOk(cfg) && MacOk(cfg, a) && MacOk(cfg, b) && Cycle(cfg, a) == Cycle(cfg, b)
    requires a.t0 == Clock(offA, startA) && b.t0 == Clock(offB, startB)
    requires startA + kA * MOD_TIME_TICKS <= from && until <= startA + (kA + 1) * MOD_TIME_TICKS
    requires startB + kB * MOD_TIME_TICKS <= from && until <= startB + (kB + 1) * MOD_TIME_TICKS
    requires from + Cycle(cfg, a) <= until
    ensures Quiet(cfg, a, offA, b, offB, from, until) <==>
            Apart(startA + kA * MOD_TIME_TICKS, a.my, startB + kB * MOD_TIME_TICKS, b.my, Cycle(cfg, a))
  {
    hide Clock, Quiet, Apart;
    SameReading(offA, startA, kA);
    SameReading(offB, startB, kB);
    QuietIffApart(cfg, a, offA, startA + kA * MOD_TIME_TICKS, b, offB, startB + kB * MOD_TIME_TICKS, from, until);
  }
}
