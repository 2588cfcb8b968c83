/** The own window over whole runs: how use and disuse change its length, how many idle frames
    it sends, and what moves it (src/skylink_tx.c:21-72, src/mac.c:38-105, 178-280). */
module Windows {
  import opened Base
  import opened Utilities
  import opened MacSpec
  import opened Tdd

  ghost predicate EventsOk(events: seq<Event>) {
    forall e :: e in events ==> EventOk(e)
  }

  // -------------------------------------------------------------------- one own window

  /** No window of this side is open. */
  predicate Closed(m: MacState) {
    !m.windowOn && !m.unused
  }

  /** There is something to transmit: a channel wants to, or an idle frame is due. */
  predicate Content(cfg: MacConfig, m: MacState, e: Event) {
    e.Transmit? && (true in e.wants || IdleFrameNeeded(cfg, m, e.now))
  }

  /** Until the window closes, every attempt to transmit falls into it, and nobody resets. */
  ghost predicate Inside(cfg: MacConfig, m: MacState, w: seq<Event>, i: nat)
    requires ConfigOk(cfg) && MacOk(cfg, m) && EventsOk(w) && i < |w|
  {
    var st := Run(cfg, m, w[..i]).0;
    !w[i].Reset? && (w[i].Transmit? ==> CanSend(cfg, st, w[i].now))
  }

  /** One of the first i events tries to transmit, with or without something to transmit. */
  ghost predicate Tried(cfg: MacConfig, m: MacState, w: seq<Event>, i: nat, content: bool)
    requires ConfigOk(cfg) && MacOk(cfg, m) && EventsOk(w) && i <= |w|
  {
    exists j :: 0 <= j < i && w[j].Transmit? && (Content(cfg, Run(cfg, m, w[..j]).0, w[j]) <==> content)
  }

  /** The events of one own window up to the attempt that finds it closed.  It is used if
      there is always something to transmit. */
  ghost predicate Window(cfg: MacConfig, m: MacState, w: seq<Event>, used: bool)
    requires ConfigOk(cfg) && MacOk(cfg, m) && EventsOk(w)
  {
    && |w| >= 2
    && (forall i: nat :: i < |w| - 1 ==> Inside(cfg, m, w, i))
    && w[|w| - 1].Transmit? && !CanSend(cfg, Run(cfg, m, w[..|w| - 1]).0, w[|w| - 1].now)
    && (if used then Tried(cfg, m, w, |w| - 1, true) && !Tried(cfg, m, w, |w| - 1, false)
        else Tried(cfg, m, w, |w| - 1, false))
  }

  /** The length of the window after it opens, and the counter of used windows. */
  function Opening(cfg: MacConfig, my: int, adjust: int): (int, int) {
    if adjust >= cfg.adjustmentPeriod then (Min(my + cfg.increment, cfg.maxWindow), 0)
    else if adjust <= -cfg.adjustmentPeriod then (Max(my - cfg.increment, cfg.minWindow), 0)
    else (my, adjust)
  }

  /** What the first i events of a window do. */
  ghost predicate Progress(cfg: MacConfig, m: MacState, w: seq<Event>, i: nat)
    requires ConfigOk(cfg) && MacOk(cfg, m) && EventsOk(w) && i <= |w|
  {
    var st := Run(cfg, m, w[..i]).0;
    if Tried(cfg, m, w, i, true) || Tried(cfg, m, w, i, false) then
      st.windowOn && (st.unused <==> Tried(cfg, m, w, i, false)) && (st.my, st.adjust) == Opening(cfg, m.my, m.adjust)
    else Closed(st) && st.my == m.my && st.adjust == m.adjust
  }

  lemma RunNext(cfg: MacConfig, m: MacState, w: seq<Event>, i: nat)
    requires ConfigOk(cfg) && MacOk(cfg, m) && EventsOk(w) && i < |w|
    ensures EventsOk(w[..i]) && EventsOk(w[..i + 1]) && EventOk(w[i])
    ensures Run(cfg, m, w[..i + 1]).0 == After(cfg, Run(cfg, m, w[..i]).0, w[i]).0
    ensures Run(cfg, m, w[..i + 1]).1 == Run(cfg, m, w[..i]).1 + After(cfg, Run(cfg, m, w[..i]).0, w[i]).1
  {
    hide After;
    assert w[..i + 1][..i] == w[..i] && w[..i + 1][i] == w[i];
    assert w[i] in w;
  }

  /** What one attempt does to the window. */
  lemma Attempt(cfg: MacConfig, m: MacState, e: Event)
    requires ConfigOk(cfg) && MacOk(cfg, m) && EventOk(e) && e.Transmit?
    ensures var st := After(cfg, m, e).0;
            if CanSend(cfg, m, e.now) then
              && st.windowOn && st.unused == (m.unused || !Content(cfg, m, e))
              && (st.my, st.adjust) == if m.windowOn then (m.my, m.adjust) else Opening(cfg, m.my, m.adjust)
            else
              && Closed(st) && st.my == m.my && st.totalFrames == 0 && st.framesPerVc == NO_FRAMES
              && st.adjust == m.adjust + (if !m.windowOn then 0 else if m.unused then -1 else 1)
  {
    hide WrapTime, CanSend, IdleFrameNeeded;
    Picks(cfg, m, e);
  }

  lemma Picks(cfg: MacConfig, m: MacState, e: Event)
    requires ConfigOk(cfg) && MacOk(cfg, m) && EventOk(e) && e.Transmit?
    ensures PickVc(cfg, m, e.now, e.wants) >= 0 <==> Content(cfg, m, e)
  {
    hide IdleFrameNeeded;
    var r := m.roundRobin;
    if true in e.wants {
      var vc :| 0 <= vc < |e.wants| && e.wants[vc];
      var i := (vc - r) % SKY_NUM_VIRTUAL_CHANNELS;
      assert (r + i) % SKY_NUM_VIRTUAL_CHANNELS == vc;
      SomeoneWanting(r, e.wants, 0, i);
    }
  }

  lemma OtherEvents(cfg: MacConfig, m: MacState, e: Event)
    requires ConfigOk(cfg) && MacOk(cfg, m) && EventOk(e) && !e.Transmit? && !e.Reset?
    ensures var st := After(cfg, m, e).0;
            st.windowOn == m.windowOn && st.unused == m.unused && st.my == m.my && st.adjust == m.adjust
  {
    hide WrapTime, TimeToOwnWindow;
  }

  lemma {:induction false} WindowProgress(cfg: MacConfig, m: MacState, w: seq<Event>, i: nat)
    requires ConfigOk(cfg) && MacOk(cfg, m) && EventsOk(w) && Closed(m) && i <= |w|
    requires forall j: nat :: j < i ==> Inside(cfg, m, w, j)
    ensures Progress(cfg, m, w, i)
  {
    hide After, Run, MacOk, ConfigOk, CanSend, Opening, Content, EventOk;
    if i == 0 {
      assert w[..0] == [];
      RunNothing(cfg, m);
    } else {
      WindowProgress(cfg, m, w, i - 1);
      RunNext(cfg, m, w, i - 1);
      var st := Run(cfg, m, w[..i - 1]).0;
      assert Inside(cfg, m, w, i - 1);
      if w[i - 1].Transmit? { Attempt(cfg, st, w[i - 1]); } else { OtherEvents(cfg, st, w[i - 1]); }
    }
  }

  lemma RunNothing(cfg: MacConfig, m: MacState)
    requires ConfigOk(cfg) && MacOk(cfg, m)
    ensures Run(cfg, m, []) == (m, [])
  {
  }

  /** A window that is used throughout counts up and any other counts down. */
  lemma WindowCounts(cfg: MacConfig, m: MacState, w: seq<Event>, used: bool)
    requires ConfigOk(cfg) && MacOk(cfg, m) && EventsOk(w) && Closed(m) && Window(cfg, m, w, used)
    ensures var st := Run(cfg, m, w).0;
            var (my, adjust) := Opening(cfg, m.my, m.adjust);
            && Closed(st) && st.my == my && st.adjust == adjust + (if used then 1 else -1)
            && st.totalFrames == 0 && st.framesPerVc == NO_FRAMES
  {
    hide After, Run, MacOk, ConfigOk, CanSend, Opening, Content, EventOk;
    var n := |w| - 1;
    WindowProgress(cfg, m, w, n);
    RunNext(cfg, m, w, n);
    assert w[..n + 1] == w;
    Attempt(cfg, Run(cfg, m, w[..n]).0, w[n]);
  }

  // ------------------------------------------------------------------ many own windows

  function Flat(ws: seq<seq<Event>>): seq<Event> {
    if ws == [] then [] else Flat(ws[..|ws| - 1]) + ws[|ws| - 1]
  }

  /** One window after the other, all of them used or none. */
  ghost predicate Windows(cfg: MacConfig, m: MacState, ws: seq<seq<Event>>, used: bool)
    requires ConfigOk(cfg) && MacOk(cfg, m)
  {
    EventsOk(Flat(ws)) &&
    (ws != [] ==>
       var rest, w := ws[..|ws| - 1], ws[|ws| - 1];
       Windows(cfg, m, rest, used) && EventsOk(w) && Window(cfg, Run(cfg, m, Flat(rest)).0, w, used))
  }

  lemma {:induction false} RunBoth(cfg: MacConfig, m: MacState, xs: seq<Event>, ys: seq<Event>)
    requires ConfigOk(cfg) && MacOk(cfg, m) && EventsOk(xs) && EventsOk(ys) && EventsOk(xs + ys)
    ensures Run(cfg, m, xs + ys).0 == Run(cfg, Run(cfg, m, xs).0, ys).0
    decreases |ys|
  {
    hide After, ConfigOk, MacOk, EventOk;
    if ys == [] {
      assert xs + ys == xs;
    } else {
      var n := |ys| - 1;
      assert (xs + ys)[..|xs| + n] == xs + ys[..n];
      assert EventsOk(xs + ys[..n]) && EventsOk(ys[..n]);
      RunBoth(cfg, m, xs, ys[..n]);
    }
  }

  /** The length of the window after k used or unused windows, and the counter then. */
  function Length(cfg: MacConfig, my: int, k: nat, used: bool): int
    requires 1 <= cfg.adjustmentPeriod
  {
    if k == 0 then my
    else
      var changes := (k - 1) / cfg.adjustmentPeriod;
      if used then Min(my + changes * cfg.increment, cfg.maxWindow)
      else Max(my - changes * cfg.increment, cfg.minWindow)
  }

  function Counter(cfg: MacConfig, k: nat, used: bool): int
    requires 1 <= cfg.adjustmentPeriod
  {
    if k == 0 then 0
    else
      var count := (k - 1) % cfg.adjustmentPeriod + 1;
      if used then count else -count
  }

  lemma NextCount(x: nat, p: nat)
    requires 1 <= p <= 4
    ensures (x + 1) / p == x / p + (if x % p == p - 1 then 1 else 0)
    ensures (x + 1) % p == if x % p == p - 1 then 0 else x % p + 1
  {
    if p == 1 { } else if p == 2 { } else if p == 3 { } else { }
  }

  lemma LengthNext(cfg: MacConfig, my: int, k: nat, used: bool)
    requires ConfigOk(cfg) && cfg.minWindow <= my <= cfg.maxWindow
    ensures var (l, a) := Opening(cfg, Length(cfg, my, k, used), Counter(cfg, k, used));
            && Length(cfg, my, k + 1, used) == l
            && Counter(cfg, k + 1, used) == a + (if used then 1 else -1)
  {
    if k > 0 {
      var p: nat := cfg.adjustmentPeriod;
      NextCount(k - 1, p);
      var q := (k - 1) / p;
      assert (q + 1) * cfg.increment == q * cfg.increment + cfg.increment;
      assert 0 <= q * cfg.increment;
    }
  }

  /** Every adjustmentPeriod used windows make the next one longer by one increment, and as
      many that are not used throughout make it shorter by one, within the limits. */
  lemma {:induction false} UseDecides(cfg: MacConfig, m: MacState, ws: seq<seq<Event>>, used: bool)
    requires ConfigOk(cfg) && MacOk(cfg, m) && Closed(m) && m.adjust == 0 && Windows(cfg, m, ws, used)
    ensures var st := Run(cfg, m, Flat(ws)).0;
            && Closed(st) && st.my == Length(cfg, m.my, |ws|, used) && st.adjust == Counter(cfg, |ws|, used)
    decreases |ws|
  {
    hide Run, Window, Opening, Length, Counter, EventOk;
    if ws == [] {
      RunNothing(cfg, m);
      NoWindows(cfg, m.my, used);
    } else {
      var k := |ws| - 1;
      UseDecides(cfg, m, ws[..k], used);
      WindowCounts(cfg, Run(cfg, m, Flat(ws[..k])).0, ws[k], used);
      RunBoth(cfg, m, Flat(ws[..k]), ws[k]);
      LengthNext(cfg, m.my, k, used);
    }
  }

  lemma NoWindows(cfg: MacConfig, my: int, used: bool)
    requires 1 <= cfg.adjustmentPeriod
    ensures Length(cfg, my, 0, used) == my && Counter(cfg, 0, used) == 0
  {
  }

  // ------------------------------------------------------------------------ idle frames

  /** An attempt at which no channel wants anything; a frame that is sent gets made. */
  predicate Bored(cfg: MacConfig, m: MacState, e: Event)
    requires ConfigOk(cfg) && MacOk(cfg, m)
  {
    && e.Transmit? && EventOk(e) && true !in e.wants && e.filled && CanSend(cfg, m, e.now)
    && WrapTime(e.now - m.lastBelief) <= cfg.idleTimeout
  }

  lemma OneBored(cfg: MacConfig, m: MacState, e: Event)
    requires ConfigOk(cfg) && MacOk(cfg, m) && Bored(cfg, m, e) && 0 <= cfg.idleFrames < 0x1_0000
    ensures var (st, sent) := After(cfg, m, e);
            && st.lastBelief == m.lastBelief
            && (if m.totalFrames < cfg.idleFrames
                then sent == [Sent(0, e.wants)] && st.totalFrames == m.totalFrames + 1
                else sent == [] && st.totalFrames == m.totalFrames)
  {
    hide WrapTime, CanSend;
    Picks(cfg, m, e);
    assert PickVc(cfg, m, e.now, e.wants) <= 0 by { NobodyWants(m.roundRobin, e.wants, 0); }
  }

  lemma {:induction false} NobodyWants(start: nat, wants: seq<bool>, i: nat)
    requires |wants| == SKY_NUM_VIRTUAL_CHANNELS && true !in wants && i <= SKY_NUM_VIRTUAL_CHANNELS
    ensures FirstWanting(start, wants, i) == -1
    decreases SKY_NUM_VIRTUAL_CHANNELS - i
  {
    if i < SKY_NUM_VIRTUAL_CHANNELS { NobodyWants(start, wants, i + 1); }
  }

  /** In a window without any content a side that has heard of its peer within the timeout
      sends exactly the configured number of idle frames, all on channel 0, unless there are
      fewer attempts than that. */
  lemma {:induction false} IdleFrames(cfg: MacConfig, m: MacState, w: seq<Event>)
    requires ConfigOk(cfg) && MacOk(cfg, m) && EventsOk(w) && 0 <= cfg.idleFrames < 0x1_0000
    requires m.totalFrames == 0 && forall i: nat :: i < |w| ==> Bored(cfg, Run(cfg, m, w[..i]).0, w[i])
    ensures var (st, sent) := Run(cfg, m, w);
            && |sent| == Min(|w|, cfg.idleFrames) == st.totalFrames
            && forall s :: s in sent ==> s.vc == 0
    decreases |w|
  {
    hide After, Run, ConfigOk, MacOk, Bored, EventOk;
    if w == [] {
      RunNothing(cfg, m);
    } else {
      var n := |w| - 1;
      forall i: nat | i < n ensures Bored(cfg, Run(cfg, m, w[..n][..i]).0, w[..n][i]) {
        assert w[..n][..i] == w[..i];
        assert Bored(cfg, Run(cfg, m, w[..i]).0, w[i]);
      }
      IdleFrames(cfg, m, w[..n]);
      RunNext(cfg, m, w, n);
      assert w[..n + 1] == w;
      OneBored(cfg, Run(cfg, m, w[..n]).0, w[n]);
    }
  }

  /** Once the peer has not been heard of for longer than the timeout, no idle frame is sent;
      what was last heard is the last belief. */
  lemma NoIdleFrames(cfg: MacConfig, m: MacState, e: Event)
    requires ConfigOk(cfg) && MacOk(cfg, m) && EventOk(e) && e.Transmit? && true !in e.wants
    requires WrapTime(e.now - m.lastBelief) > cfg.idleTimeout
    ensures After(cfg, m, e).1 == []
  {
    hide WrapTime, CanSend;
    Picks(cfg, m, e);
  }

  /** A belief starts the counts and the timeout anew, and takes the length the peer announces
      or the admissible length nearest to it. */
  lemma BeliefStartsAnew(cfg: MacConfig, m: MacState, e: Event, later: int, length: int)
    requires ConfigOk(cfg) && MacOk(cfg, m) && e.Belief? && cfg.minWindow <= length <= cfg.maxWindow
    ensures var st := After(cfg, m, e).0;
            && st.totalFrames == 0 && st.framesPerVc == NO_FRAMES
            && WrapTime(later - st.lastBelief) == WrapTime(later - e.now)
            && Abs(st.peer - e.length) <= Abs(length - e.length)
  {
    hide WrapTime;
  }

  /** An announced remainder longer than the window counts as a whole window. */
  lemma BeliefRemaining(cfg: MacConfig, m: MacState, now: int, receiveTime: int, length: int, remaining: int)
    requires ConfigOk(cfg) && MacOk(cfg, m)
    ensures var st := UpdateBelief(cfg, m, now, receiveTime, length, remaining);
            remaining >= st.peer ==> st == UpdateBelief(cfg, m, now, receiveTime, length, st.peer)
  {
  }

  /** What a frame announces: the true remainder while the window is open, and one tick
      otherwise. */
  lemma FieldsAnnounced(cfg: MacConfig, m: MacState, now: int)
    requires ConfigOk(cfg) && MacOk(cfg, m) && m.my < 0x1_0000
    ensures var (window, remaining) := TddFields(cfg, m, now);
            && window == m.my && 1 <= remaining <= m.my
            && (if CanSend(cfg, m, now) then remaining == OwnRemaining(cfg, m, now) else remaining == 1)
  {
    hide WrapTime;
  }

  /** A side that has just been created has not heard of any peer, so for more than 2^24 -
      300000 ticks it sends no idle frames. */
  lemma CreatedIsSilent(cfg: MacConfig, e: Event)
    requires ConfigOk(cfg) && cfg.idleTimeout <= 90000 && EventOk(e) && e.Transmit? && true !in e.wants
    requires 0 <= e.now < MOD_TIME_TICKS - 300000
    ensures var m := MacCreated(cfg);
            && MacOk(cfg, m) && Closed(m) && m.adjust == 0 && m.my == m.peer == cfg.minWindow
            && After(cfg, m, e).1 == []
  {
    NoIdleFrames(cfg, MacCreated(cfg), e);
  }

  // ---------------------------------------------------------------------- frame counters

  function SentOn(sent: seq<Sent>, vc: nat): nat {
    if sent == [] then 0
    else SentOn(sent[..|sent| - 1], vc) + (if sent[|sent| - 1].vc == vc then 1 else 0)
  }

  /** An attempt in the own window; a frame that is sent gets made. */
  predicate Made(cfg: MacConfig, m: MacState, e: Event)
    requires ConfigOk(cfg) && MacOk(cfg, m)
  {
    e.Transmit? && EventOk(e) && e.filled && CanSend(cfg, m, e.now)
  }

  ghost predicate AllMade(cfg: MacConfig, m: MacState, w: seq<Event>)
    requires ConfigOk(cfg) && MacOk(cfg, m) && EventsOk(w)
  {
    forall i: nat :: i < |w| ==> Made(cfg, Run(cfg, m, w[..i]).0, w[i])
  }

  lemma MadeBefore(cfg: MacConfig, m: MacState, w: seq<Event>, n: nat)
    requires ConfigOk(cfg) && MacOk(cfg, m) && EventsOk(w) && n < |w| && AllMade(cfg, m, w)
    ensures EventsOk(w[..n]) && AllMade(cfg, m, w[..n]) && Made(cfg, Run(cfg, m, w[..n]).0, w[n])
  {
    hide Run, ConfigOk, Made, EventOk, MacOk;
    forall i: nat | i < n ensures Made(cfg, Run(cfg, m, w[..n][..i]).0, w[..n][i]) {
      assert w[..n][..i] == w[..i];
    }
  }

  /** What the counters must be after the frames sent. */
  ghost predicate Counted(m: MacState, st: MacState, sent: seq<Sent>, vc: nat) {
    && vc < |st.framesPerVc| && vc < |m.framesPerVc|
    && st.framesPerVc[vc] == (m.framesPerVc[vc] + SentOn(sent, vc)) % 0x1_0000
    && st.totalFrames == (m.totalFrames + |sent|) % 0x1_0000
  }

  lemma CountedMore(m: MacState, st: MacState, t: MacState, sent: seq<Sent>, more: seq<Sent>, vc: nat)
    requires Counted(m, st, sent, vc) && Counted(st, t, more, vc) && |more| <= 1
    ensures Counted(m, t, sent + more, vc)
  {
    hide SentOn;
    SentMore(sent, more, vc);
    ModAdd(m.framesPerVc[vc] + SentOn(sent, vc), SentOn(more, vc), 0x1_0000);
    ModAdd(m.totalFrames + |sent|, |more|, 0x1_0000);
  }

  /** In a window every frame is counted once, for its channel and in all. */
  lemma {:induction false} FramesCounted(cfg: MacConfig, m: MacState, w: seq<Event>, vc: nat)
    requires ConfigOk(cfg) && MacOk(cfg, m) && EventsOk(w) && vc < SKY_NUM_VIRTUAL_CHANNELS && AllMade(cfg, m, w)
    ensures Counted(m, Run(cfg, m, w).0, Run(cfg, m, w).1, vc)
    decreases |w|
  {
    hide After, Run, ConfigOk, Made, AllMade, EventOk, Counted;
    if w == [] {
      RunNothing(cfg, m);
      NothingCounted(cfg, m, vc);
    } else {
      var n := |w| - 1;
      MadeBefore(cfg, m, w, n);
      FramesCounted(cfg, m, w[..n], vc);
      RunNext(cfg, m, w, n);
      assert w[..n + 1] == w;
      var (st, sent) := Run(cfg, m, w[..n]);
      OneCounted(cfg, st, w[n], vc);
      var (t, more) := After(cfg, st, w[n]);
      CountedMore(m, st, t, sent, more, vc);
    }
  }

  lemma NothingCounted(cfg: MacConfig, m: MacState, vc: nat)
    requires MacOk(cfg, m) && vc < SKY_NUM_VIRTUAL_CHANNELS
    ensures Counted(m, m, [], vc)
  {
  }

  lemma SentMore(sent: seq<Sent>, more: seq<Sent>, vc: nat)
    requires |more| <= 1
    ensures SentOn(sent + more, vc) == SentOn(sent, vc) + SentOn(more, vc)
  {
    if more == [] {
      assert sent + more == sent;
    } else {
      assert (sent + more)[..|sent|] == sent && more[..0] == [];
    }
  }

  lemma OneCounted(cfg: MacConfig, m: MacState, e: Event, vc: nat)
    requires ConfigOk(cfg) && MacOk(cfg, m) && vc < SKY_NUM_VIRTUAL_CHANNELS && Made(cfg, m, e)
    ensures var (st, sent) := After(cfg, m, e); |sent| <= 1 && Counted(m, st, sent, vc)
  {
    hide WrapTime, CanSend, IdleFrameNeeded, SentOn;
    var sent := After(cfg, m, e).1;
    SentFew(sent, vc);
  }

  lemma SentFew(sent: seq<Sent>, vc: nat)
    ensures |sent| == 0 ==> SentOn(sent, vc) == 0
    ensures |sent| == 1 ==> SentOn(sent, vc) == if sent[0].vc == vc then 1 else 0
  {
    assert |sent| == 1 ==> sent[..0] == [];
  }

  // ------------------------------------------------------------------- moving the window

  /** Shifting by k ticks, in either direction, makes everything happen k ticks earlier. */
  lemma ShiftIsEarlier(cfg: MacConfig, m: MacState, k: int, now: int)
    requires ConfigOk(cfg) && MacOk(cfg, m)
    ensures var st := After(cfg, m, Shift(k)).0;
            && OwnRemaining(cfg, st, now) == OwnRemaining(cfg, m, now + Abs(k))
            && PeerRemaining(cfg, st, now) == PeerRemaining(cfg, m, now + Abs(k))
            && TimeToOwnWindow(cfg, st, now) == TimeToOwnWindow(cfg, m, now + Abs(k))
  {
    hide WrapTime;
    ShiftWraps(m.t0, Abs(k), now);
    ShiftWraps(m.t0, Abs(k), now - (m.my + cfg.gap));
  }

  lemma ShiftWraps(t0: int, k: nat, now: int)
    ensures WrapTime(now - WrapTime(t0 - k)) == WrapTime(now + k - t0)
  {
    ModAdd(-(t0 - k), now, MOD_TIME_TICKS);
    ModSub(now, t0 - k, MOD_TIME_TICKS);
    ModAdd(now, -WrapTime(t0 - k), MOD_TIME_TICKS);
  }

  /** A reset leaves a window of the minimal length that opens right now. */
  lemma ResetOpens(cfg: MacConfig, m: MacState, now: int)
    requires ConfigOk(cfg) && MacOk(cfg, m) && cfg.minWindow + cfg.gap + m.peer + cfg.tail < MOD_TIME_TICKS
    ensures var st := After(cfg, m, Reset(now)).0;
            && OwnRemaining(cfg, st, now) == cfg.minWindow && CanSend(cfg, st, now)
            && st.peer == m.peer && st.adjust == 0
  {
    hide WrapTime;
    var c := cfg.minWindow + cfg.gap + m.peer + cfg.tail;
    ShiftWraps(now, c, now);
    assert WrapTime(now + c - now) == c by { WrapSmall(c); }
    ModUnique(c, 1, 0, c);
  }

  lemma WrapSmall(k: nat)
    requires k < MOD_TIME_TICKS
    ensures WrapTime(k) == k
  {
  }

  /** The limits on a configuration: every field that is within them stays, and the others get
      the nearest value, or 25000 ticks for the timeout. */
  lemma SanitizedExact(cfg: MacConfig)
    requires 1 <= cfg.minWindow && 0 <= cfg.gap && 0 <= cfg.tail && 0 <= cfg.increment
    ensures var s := Sanitized(cfg);
            && ConfigOk(s) && s.idleFrames <= 3 && 5000 <= s.idleTimeout <= 90000
            && (ConfigOk(cfg) && cfg.idleFrames <= 3 && 5000 <= cfg.idleTimeout <= 90000 ==> s == cfg)
            && s == cfg.(maxWindow := s.maxWindow, idleFrames := s.idleFrames, idleTimeout := s.idleTimeout,
                         carrierSense := s.carrierSense, adjustmentPeriod := s.adjustmentPeriod)
            && (s.idleTimeout == cfg.idleTimeout || s.idleTimeout == 25000)
    ensures forall c: MacConfig ::
              ConfigOk(c) && c.minWindow == cfg.minWindow && c.gap == cfg.gap && c.idleFrames <= 3 ==>
                var s := Sanitized(cfg);
                && Abs(s.maxWindow - cfg.maxWindow) <= Abs(c.maxWindow - cfg.maxWindow)
                && Abs(s.idleFrames - cfg.idleFrames) <= Abs(c.idleFrames - cfg.idleFrames)
                && Abs(s.carrierSense - cfg.carrierSense) <= Abs(c.carrierSense - cfg.carrierSense)
                && Abs(s.adjustmentPeriod - cfg.adjustmentPeriod) <= Abs(c.adjustmentPeriod - cfg.adjustmentPeriod)
  {
  }
}
