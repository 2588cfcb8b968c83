/** A peer resizes its window and the frame that announces it is lost (src/mac.c:107-133,
    201-230).  The two then count cycles of different length, and their windows drift towards
    each other by the difference in every cycle: for how many cycles do they stay quiet? */
module Drift {
  import opened Base
  import opened Utilities
  import opened MacSpec
  import opened Collision

  /** In cycle k, counted from time 0 for the one and from time d for the other, the first
      window closes before the second opens and opens after the second has closed. */
  predicate Clear(wa: int, ca: int, d: int, wb: int, cb: int, k: nat) {
    wa + k * (ca - cb) <= d && d + wb - cb <= k * (ca - cb)
  }

  /** In a clear cycle the second window is closed while the first is open. */
  lemma ClearIsQuiet(wa: int, ca: int, d: int, wb: int, cb: int, t: nat)
    requires 0 < wa <= ca && 0 < wb <= cb && Clear(wa, ca, d, wb, cb, t / ca)
    ensures !(Open(0, wa, ca, t) && Open(d, wb, cb, t))
  {
    var k, x := t / ca, t % ca;
    if x < wa {
      var r := x + k * (ca - cb) - d + cb;
      assert t - d == (k - 1) * cb + r by { Distribute(k, ca, cb); }
      ModUnique(t - d, k - 1, r, cb);
    }
  }

  lemma Distribute(k: int, ca: int, cb: int)
    ensures k * (ca - cb) == k * ca - k * cb && (k - 1) * cb == k * cb - cb
    ensures (k - 1) * (ca - cb) == k * (ca - cb) - (ca - cb)
  {
  }

  /** The first cycle that is not clear sees both windows open, if the drift does not jump
      over a whole window. */
  lemma Collides(wa: int, ca: int, d: int, wb: int, cb: int, k: nat) returns (t: nat)
    requires 0 < wa <= ca && 0 < wb <= cb && 0 <= d <= cb - wb && -wb <= ca - cb <= wa
    requires !Clear(wa, ca, d, wb, cb, k) && (k > 0 ==> Clear(wa, ca, d, wb, cb, k - 1))
    ensures t < (k + 1) * ca && Open(0, wa, ca, t) && Open(d, wb, cb, t)
  {
    Distribute(k, ca, cb);
    if wa + k * (ca - cb) > d {
      var x := d - k * (ca - cb);
      assert d + k * cb == k * ca + x && 0 <= x < wa;
      t := k * ca + x;
      ModUnique(t, k, x, ca);
      ModUnique(t - d, k, 0, cb);
    } else {
      t := k * ca;
      var r := k * (ca - cb) + cb - d;
      assert t - d == (k - 1) * cb + r && 0 <= r < wb;
      ModUnique(t, k, 0, ca);
      ModUnique(t - d, k - 1, r, cb);
    }
  }

  ghost predicate QuietUntil(wa: int, ca: int, d: int, wb: int, cb: int, until: int)
    requires ca > 0 && cb > 0
  {
    forall t: nat :: t < until ==> !(Open(0, wa, ca, t) && Open(d, wb, cb, t))
  }

  /** The windows are not open together for n cycles if all n are clear, and only then unless
      the drift jumps over a whole window. */
  lemma {:induction false} QuietIffClear(wa: int, ca: int, d: int, wb: int, cb: int, n: nat)
    requires 0 < wa <= ca && 0 < wb <= cb && 0 <= d <= cb - wb
    ensures (forall k: nat :: k < n ==> Clear(wa, ca, d, wb, cb, k)) ==> QuietUntil(wa, ca, d, wb, cb, n * ca)
    ensures QuietUntil(wa, ca, d, wb, cb, n * ca) && -wb <= ca - cb <= wa ==>
              forall k: nat :: k < n ==> Clear(wa, ca, d, wb, cb, k)
  {
    hide Clear, Open;
    if n > 0 {
      QuietIffClear(wa, ca, d, wb, cb, n - 1);
      assert n * ca == (n - 1) * ca + ca;
      if forall k: nat :: k < n ==> Clear(wa, ca, d, wb, cb, k) {
        forall t: nat | t < n * ca ensures !(Open(0, wa, ca, t) && Open(d, wb, cb, t)) {
          Quotient(t, ca, n);
          ClearIsQuiet(wa, ca, d, wb, cb, t);
        }
      } else if -wb <= ca - cb <= wa && forall k: nat :: k < n - 1 ==> Clear(wa, ca, d, wb, cb, k) {
        var t := Collides(wa, ca, d, wb, cb, n - 1);
      }
    }
  }

  lemma Quotient(t: nat, c: int, n: nat)
    requires c > 0 && t < n * c
    ensures 0 <= t / c < n
  {
  }

  /** The drift goes one way, so the first and the last cycle decide. */
  lemma EndsDecide(wa: int, ca: int, d: int, wb: int, cb: int, n: nat)
    requires 0 < n && d <= cb - wb
    ensures (forall k: nat :: k < n ==> Clear(wa, ca, d, wb, cb, k)) <==>
            wa <= d && wa + (n - 1) * (ca - cb) <= d && d + wb - cb <= (n - 1) * (ca - cb)
  {
    var e := ca - cb;
    if wa <= d && wa + (n - 1) * e <= d && d + wb - cb <= (n - 1) * e {
      forall k: nat | k < n ensures Clear(wa, ca, d, wb, cb, k) { Between(k, n - 1, e); }
    } else if wa > d {
      assert !Clear(wa, ca, d, wb, cb, 0);
    } else {
      assert !Clear(wa, ca, d, wb, cb, n - 1);
    }
  }

  lemma Between(k: nat, n: nat, e: int)
    requires k <= n
    ensures e >= 0 ==> 0 <= k * e <= n * e
    ensures e <= 0 ==> n * e <= k * e <= 0
  {
  }

  // ---------------------------------------------------------------- the lost announcement

  /** What is left between the window of `a` and the next one of `b`. */
  function Before(cfg: MacConfig, l: Link): int
    requires Cycle(cfg, l.a) > 0
  {
    (l.startB - l.startA) % Cycle(cfg, l.a) - l.a.my
  }

  /** The resized sender as the windows above see it, s ticks on. */
  lemma SenderOpen(cfg: MacConfig, l: Link, resize: Resize, s: nat)
    requires Aligned(cfg, l) && resize != Keep
    requires var a := Resized(cfg, l.a, resize, Clock(l.offA, l.now)); s + Cycle(cfg, a) < MOD_TIME_TICKS
    ensures var a := Resized(cfg, l.a, resize, Clock(l.offA, l.now));
            && Cycle(cfg, a) > 0
            && (CanSend(cfg, a, Clock(l.offA, l.now + s)) <==> Open(0, a.my, Cycle(cfg, a), s))
  {
    hide Clock, WrapTime, Apart;
    var a := Resized(cfg, l.a, resize, Clock(l.offA, l.now));
    var c := Cycle(cfg, a);
    ClockShift(l.offA, l.now, -c);
    assert MacOk(cfg, a) && a.t0 == Clock(l.offA, l.now - c) by { WrapInRange(Clock(l.offA, l.now) - c); }
    SendsWhenOpen(cfg, a, l.offA, l.now - c, l.now + s);
    ModShift(s, c);
  }

  lemma WrapInRange(now: int)
    ensures 0 <= WrapTime(now) < MOD_TIME_TICKS
  {
  }

  /** The receiver. */
  lemma ReceiverOpen(cfg: MacConfig, l: Link, s: nat)
    requires Aligned(cfg, l) && l.now + s < l.startB + MOD_TIME_TICKS
    ensures var c := Cycle(cfg, l.b);
            && c > 0
            && (CanSend(cfg, l.b, Clock(l.offB, l.now + s)) <==> Open((l.startB - l.now) % c, l.b.my, c, s))
  {
    hide Clock, WrapTime, Apart;
    var c := Cycle(cfg, l.b);
    SendsWhenOpen(cfg, l.b, l.offB, l.startB, l.now + s);
    ModSub(s, l.startB - l.now, c);
    ModSub(s, (l.startB - l.now) % c, c);
    ModSmall((l.startB - l.now) % c, c);
  }

  /** While `a` sends, the next window of `b` is this far away. */
  lemma DistanceToB(cfg: MacConfig, l: Link)
    requires Aligned(cfg, l) && Open(l.startA, l.a.my, Cycle(cfg, l.a), l.now)
    ensures var c := Cycle(cfg, l.a);
            (l.startB - l.now) % c == Before(cfg, l) + l.a.my - (l.now - l.startA) % c
  {
    var c := Cycle(cfg, l.a);
    ModSub(l.startB - l.startA, l.now - l.startA, c);
    ModSmall((l.startB - l.startA) % c - (l.now - l.startA) % c, c);
  }

  lemma QuietAsWindows(cfg: MacConfig, l: Link, resize: Resize, a: MacState, d: int, until: nat)
    requires Aligned(cfg, l) && resize != Keep && a == Resized(cfg, l.a, resize, Clock(l.offA, l.now))
    requires until + Cycle(cfg, a) <= MOD_TIME_TICKS && l.now + until <= l.startB + MOD_TIME_TICKS
    requires Cycle(cfg, l.b) > 0 && d == (l.startB - l.now) % Cycle(cfg, l.b)
    ensures Cycle(cfg, a) > 0
    ensures Quiet(cfg, a, l.offA, l.b, l.offB, l.now, l.now + until) <==>
            QuietUntil(a.my, Cycle(cfg, a), d, l.b.my, Cycle(cfg, l.b), until)
  {
    hide Clock, Open, CanSend, Aligned, Resized;
    ResizedCycle(cfg, l, resize);
    forall s: nat | s < until
      ensures CanSend(cfg, a, Clock(l.offA, l.now + s)) <==> Open(0, a.my, Cycle(cfg, a), s)
      ensures CanSend(cfg, l.b, Clock(l.offB, l.now + s)) <==> Open(d, l.b.my, Cycle(cfg, l.b), s)
    {
      SenderOpen(cfg, l, resize, s);
      ReceiverOpen(cfg, l, s);
    }
    if QuietUntil(a.my, Cycle(cfg, a), d, l.b.my, Cycle(cfg, l.b), until) {
      forall t | l.now <= t < l.now + until
        ensures !(CanSend(cfg, a, Clock(l.offA, t)) && CanSend(cfg, l.b, Clock(l.offB, t)))
      {
        var s: nat := t - l.now;
        assert t == l.now + s;
        assert !(Open(0, a.my, Cycle(cfg, a), s) && Open(d, l.b.my, Cycle(cfg, l.b), s));
      }
    }
  }

  lemma ResizedCycle(cfg: MacConfig, l: Link, resize: Resize)
    requires Aligned(cfg, l)
    ensures var a := Resized(cfg, l.a, resize, Clock(l.offA, l.now));
            0 < a.my && Cycle(cfg, a) == Cycle(cfg, l.b) + a.my - l.a.my && Cycle(cfg, a) > 0
  {
    hide Clock, WrapTime, Apart;
  }

  /** Room for n cycles in which one window is longer by `longer` ticks, which may be
      negative, and starts `phase` ticks late: `before` is what is left before the other
      window, `after` what is left behind it. */
  predicate Withstands(before: int, after: int, phase: int, longer: int, n: nat) {
    phase + longer <= before && phase + n * longer <= before && (1 - n) * longer <= after + phase
  }

  lemma DriftInNumbers(my: int, gap: int, peer: int, tail: int, before: int, phase: int, longer: int, n: nat)
    requires 0 <= phase < my && 0 < my + longer && 0 < peer && 0 <= gap && 0 <= tail && 0 < n
    requires 0 <= before <= gap + tail
    ensures var c := my + gap + peer + tail;
            && c + longer > 0
            && var quiet := QuietUntil(my + longer, c + longer, before + my - phase, peer, c, n * (c + longer));
               && (Withstands(before, gap + tail - before, phase, longer, n) ==> quiet)
               && (quiet && -peer <= longer ==> Withstands(before, gap + tail - before, phase, longer, n))
  {
    hide QuietUntil;
    var c := my + gap + peer + tail;
    QuietIffClear(my + longer, c + longer, before + my - phase, peer, c, n);
    EndsDecide(my + longer, c + longer, before + my - phase, peer, c, n);
    assert (n - 1) * (c + longer - c) == n * longer - longer;
  }

  /** From the moment `a` resizes its window, the peers stay quiet through n of its cycles
      without any further frame if the windows have not drifted together by then: a longer one
      takes its increment from the time before the window of `b` in every cycle, and a shorter
      one comes back earlier by as much.  The condition is exact unless the window shrinks by
      more than the length of the other, which may then be jumped over. */
  lemma LostAnnouncement(cfg: MacConfig, l: Link, resize: Resize, n: nat)
    requires Aligned(cfg, l) && CanSend(cfg, l.a, Clock(l.offA, l.now)) && resize != Keep && 0 < n
    requires var a := Resized(cfg, l.a, resize, Clock(l.offA, l.now));
             && (n + 1) * Cycle(cfg, a) <= MOD_TIME_TICKS
             && l.now + n * Cycle(cfg, a) <= l.startB + MOD_TIME_TICKS
    ensures var a := Resized(cfg, l.a, resize, Clock(l.offA, l.now));
            var before, phase := Before(cfg, l), (l.now - l.startA) % Cycle(cfg, l.a);
            var after, longer := cfg.gap + cfg.tail - before, a.my - l.a.my;
            && Cycle(cfg, a) > 0
            && var quiet := Quiet(cfg, a, l.offA, l.b, l.offB, l.now, l.now + n * Cycle(cfg, a));
               && (Withstands(before, after, phase, longer, n) ==> quiet)
               && (quiet && -longer <= l.b.my ==> Withstands(before, after, phase, longer, n))
  {
    hide Clock, Open, CanSend, Resized, Quiet, QuietUntil;
    var a := Resized(cfg, l.a, resize, Clock(l.offA, l.now));
    SendsWhenOpen(cfg, l.a, l.offA, l.startA, l.now);
    ResizedCycle(cfg, l, resize);
    DistanceToB(cfg, l);
    QuietAsWindows(cfg, l, resize, a, (l.startB - l.now) % Cycle(cfg, l.b), n * Cycle(cfg, a));
    PhaseOpen(l.startA, l.a.my, Cycle(cfg, l.a), l.now);
    DriftInNumbers(l.a.my, cfg.gap, l.b.my, cfg.tail, Before(cfg, l), (l.now - l.startA) % Cycle(cfg, l.a),
                   a.my - l.a.my, n);
  }

  lemma PhaseOpen(start: int, w: int, c: int, t: int)
    requires c > 0 && Open(start, w, c, t)
    ensures 0 <= (t - start) % c < w
  {
  }
}
