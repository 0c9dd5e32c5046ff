/** `countDown`: one timed segment. It draws `msg: m:ss/total` once,
    then reacts to one-second ticks and to space presses until a tick
    finds no time left. Clock readings are the `now` arguments of the
    events; durations and instants are nanoseconds. */
module Countdown {
  import opened Durations

  /** One drawn line: the remaining and total whole seconds, and whether
      it carries the ` [Paused]` suffix. The message never changes within a
      countdown, so it is not repeated here. */
  datatype Render = Render(left: int, total: int, paused: bool)

  /** How a count of seconds is shown by `%d:%02d` of `s/60` and `s%60`,
      Go's truncating division and remainder. */
  function Clock(seconds: int): (ms: (int, int))
    ensures ms.0 * 60 + ms.1 == seconds
    ensures 0 <= seconds ==> 0 <= ms.0 && 0 <= ms.1 < 60
    ensures seconds < 0 ==> ms.0 <= 0 && -60 < ms.1 <= 0
  {
    (Quot(seconds, 60), Rem(seconds, 60))
  }

  /** The state of one countdown: the deadline, the pause flag, the
      remainder captured at the last pause or tick, the last rounded
      remainder, whether the ticker runs, whether the loop has exited,
      and the line on screen. */
  datatype Timer = Timer(
    total: int,
    endTime: int,
    paused: bool,
    leftSeconds: Duration,
    left: int,
    ticking: bool,
    finished: bool,
    line: Render)

  /** The ticker runs exactly while the loop runs unpaused; the screen shows
      the current remainder and pause flag; the loop only exits unpaused
      with nothing left to show. */
  predicate Inv(t: Timer) {
    && t.ticking == (!t.paused && !t.finished)
    && t.line == Render(t.left, t.total, t.paused)
    && (t.finished ==> t.left <= 0)
  }

  /** Entry: the deadline is `d` after the first clock reading; the first
      line shows the remainder at the second reading. */
  function Start(d: Duration, now0: int, now1: int): (t: Timer)
    ensures Inv(t) && !t.finished && !t.paused
    ensures t.endTime - now0 == d && t.total == RoundSeconds(d)
    ensures t.left == RoundSeconds(t.endTime - now1) && t.line == Render(t.left, t.total, false)
    ensures now1 == now0 ==> t.line.left == t.total
  {
    var endTime := now0 + d;
    var left := RoundSeconds(endTime - now1);
    var total := RoundSeconds(d);
    Timer(total, endTime, false, 0, left, true, false, Render(left, total, false))
  }

  /** A tick: redraw the rounded remainder; exit when it is at most zero. */
  function OnTick(t: Timer, now: int): (r: Timer)
    requires Inv(t) && t.ticking
    ensures Inv(r)
    ensures r.finished <==> r.endTime - now < HALF_SECOND
    ensures r.finished && -HALF_SECOND < r.endTime - now ==> r.line.left == 0
    ensures r.endTime == t.endTime && r.total == t.total && !r.paused
    ensures r.leftSeconds == t.endTime - now
    ensures r.line == Render(RoundSeconds(t.endTime - now), t.total, false)
  {
    var leftSeconds := t.endTime - now;
    var left := RoundSeconds(leftSeconds);
    RoundSecondsNonPositive(leftSeconds);
    t.(leftSeconds := leftSeconds, left := left, ticking := left > 0,
       finished := left <= 0, line := Render(left, t.total, false))
  }

  /** A space press: pausing freezes the remainder and stops the ticker;
      resuming sets a new deadline from the frozen remainder cut down to
      whole seconds, and restarts the ticker. Never exits the loop. */
  function OnSpace(t: Timer, now: int): (r: Timer)
    requires Inv(t) && !t.finished
    ensures Inv(r) && !r.finished && r.paused == !t.paused && r.total == t.total
    ensures !t.paused ==> r.endTime == t.endTime && r.leftSeconds == t.endTime - now
    ensures !t.paused ==> r.line == Render(RoundSeconds(t.endTime - now), t.total, true)
    ensures t.paused ==> r.line == Render(RoundSeconds(t.leftSeconds), t.total, false)
    ensures t.paused && 0 <= t.leftSeconds ==> t.leftSeconds - SECOND < r.endTime - now <= t.leftSeconds
    ensures t.paused && t.leftSeconds < 0 ==> t.leftSeconds <= r.endTime - now <= 0 && r.endTime - now < t.leftSeconds + SECOND
    ensures t.paused ==> (r.endTime - now) % SECOND == 0
  {
    if t.paused then
      var left := RoundSeconds(t.leftSeconds);
      t.(endTime := now + TruncSeconds(t.leftSeconds) * SECOND, left := left, paused := false,
         ticking := true, line := Render(left, t.total, false))
    else
      var leftSeconds := t.endTime - now;
      var left := RoundSeconds(leftSeconds);
      t.(leftSeconds := leftSeconds, left := left, paused := true,
         ticking := false, line := Render(left, t.total, true))
  }

  /** A pause with a second and a half left, resumed later, leaves only
      one second to run: half a second of the countdown is lost. */
  lemma ResumeDropsFraction(t: Timer, pauseAt: int, resumeAt: int)
    requires Inv(t) && !t.finished && !t.paused
    requires t.endTime - pauseAt == 3 * HALF_SECOND
    ensures OnSpace(OnSpace(t, pauseAt), resumeAt).endTime - resumeAt == SECOND
    ensures OnSpace(OnSpace(t, pauseAt), resumeAt).line.left == 2
  {
  }

  /** What reaches the loop: a tick only while the ticker runs, and nothing
      once the loop has exited. */
  datatype Event = Tick(at: int) | Press(at: int)

  predicate Delivered(t: Timer, e: Event) {
    !t.finished && (e.Tick? ==> t.ticking)
  }

  function Step(t: Timer, e: Event): (r: Timer)
    requires Inv(t)
    ensures Inv(r)
  {
    if !Delivered(t, e) then t
    else
      match e
      case Tick(now) => OnTick(t, now)
      case Press(now) => OnSpace(t, now)
  }

  /** The state after the events of `events`, in order. */
  function Run(t: Timer, events: seq<Event>): (r: Timer)
    requires Inv(t)
    ensures Inv(r)
    ensures r.total == t.total
    decreases |events|
  {
    if events == [] then t
    else Step(Run(t, events[..|events| - 1]), events[|events| - 1])
  }

  /** Once the loop has exited, nothing changes it. */
  lemma {:induction false} RunAfterFinish(t: Timer, events: seq<Event>)
    requires Inv(t) && t.finished
    ensures Run(t, events) == t
    decreases |events|
  {
    if events != [] {
      RunAfterFinish(t, events[..|events| - 1]);
    }
  }

  /** Space presses alone never end a countdown. */
  lemma {:induction false} PressesNeverFinish(t: Timer, events: seq<Event>)
    requires Inv(t) && !t.finished
    requires forall k :: 0 <= k < |events| ==> events[k].Press?
    ensures !Run(t, events).finished
    decreases |events|
  {
    if events != [] {
      PressesNeverFinish(t, events[..|events| - 1]);
    }
  }

  /** While paused, ticks change nothing: the ticker is stopped. */
  lemma {:induction false} PausedIgnoresTicks(t: Timer, events: seq<Event>)
    requires Inv(t) && t.paused
    requires forall k :: 0 <= k < |events| ==> events[k].Tick?
    ensures Run(t, events) == t
    decreases |events|
  {
    if events != [] {
      PausedIgnoresTicks(t, events[..|events| - 1]);
    }
  }

  /** Event `k` is the tick that ends the loop: it reaches a running,
      unpaused loop with less than half a second left. */
  predicate FinishingTick(t: Timer, events: seq<Event>, k: nat)
    requires Inv(t) && k < |events|
  {
    var s := Run(t, events[..k]);
    && events[k].Tick?
    && !s.finished && !s.paused
    && s.endTime - events[k].at < HALF_SECOND
    && Run(t, events[..k + 1]).finished
  }

  /** A countdown that has ended was ended by a tick, and by no other
      event. */
  lemma {:induction false} OnlyTicksFinish(t: Timer, events: seq<Event>)
    requires Inv(t) && !t.finished && Run(t, events).finished
    ensures exists k :: 0 <= k < |events| && FinishingTick(t, events, k)
    decreases |events|
  {
    var n := |events| - 1;
    assert events[..n + 1] == events;
    if Run(t, events[..n]).finished {
      OnlyTicksFinish(t, events[..n]);
      var k :| 0 <= k < n && FinishingTick(t, events[..n], k);
      assert events[..n][..k] == events[..k];
      assert events[..n][..k + 1] == events[..k + 1];
      assert FinishingTick(t, events, k);
    } else {
      assert FinishingTick(t, events, n);
    }
  }

  /** Ticks at every whole second after the start. */
  function Ticks(start: int, n: nat): (ticks: seq<Event>)
    ensures |ticks| == n
    ensures forall k :: 0 <= k < n ==> ticks[k] == Tick(start + (k + 1) * SECOND)
  {
    if n == 0 then [] else Ticks(start, n - 1) + [Tick(start + n * SECOND)]
  }

  /** Without pauses and with the ticker on time, a countdown of `m` whole
      seconds counts down one second per tick, ends on tick `m`, and
      shows 0:00 then. */
  lemma {:induction false} OnTimeCountdown(start: int, m: nat, n: nat)
    requires 1 <= n <= m
    ensures var r := Run(Start(m * SECOND, start, start), Ticks(start, n));
      && r.endTime == start + m * SECOND && !r.paused
      && r.line == Render(m - n, m, false) && (r.finished <==> n == m)
  {
    var t := Start(m * SECOND, start, start);
    assert RoundSeconds(m * SECOND) == m by {
      RoundSecondsUnique(m * SECOND, m);
    }
    assert Ticks(start, n)[..n - 1] == Ticks(start, n - 1);
    var s := Run(t, Ticks(start, n - 1));
    if n > 1 {
      OnTimeCountdown(start, m, n - 1);
    }
    assert s.endTime == start + m * SECOND && !s.finished && !s.paused;
    var remaining := (m - n) * SECOND;
    assert s.endTime - (start + n * SECOND) == remaining;
    RoundSecondsUnique(remaining, m - n);
  }

  /** With the ticker on time and no pauses, a countdown of any positive
      duration `d` redraws `d` minus the elapsed seconds, rounded, at each
      tick, and has exited after tick `n` exactly when less than half a
      second of `d` is left at that tick. */
  lemma {:induction false} OnTimeAnyDuration(start: int, d: Duration, n: nat)
    requires d > 0 && 1 <= n
    ensures var r := Run(Start(d, start, start), Ticks(start, n));
      && r.endTime == start + d && !r.paused && r.total == RoundSeconds(d)
      && (r.finished <==> d - n * SECOND < HALF_SECOND)
      && (n == 1 || d - (n - 1) * SECOND >= HALF_SECOND ==>
            r.line == Render(RoundSeconds(d - n * SECOND), RoundSeconds(d), false))
  {
    var t := Start(d, start, start);
    assert Ticks(start, n)[..n - 1] == Ticks(start, n - 1);
    var s := Run(t, Ticks(start, n - 1));
    if n > 1 {
      OnTimeAnyDuration(start, d, n - 1);
    }
    assert s.endTime == start + d && !s.paused;
    assert !s.finished <==> n == 1 || d - (n - 1) * SECOND >= HALF_SECOND;
  }

  /** The tick that ends an on-time countdown of `d > 0`: the first with
      less than half a second of `d` left. It is tick `total` (tick 1 when
      `d` rounds to zero), within half a second of `d` when `d` is at
      least half a second, and it draws 0 unless it comes half a second or
      more after the deadline, when it draws -1, shown as `0:-1`. */
  lemma LastOnTimeTick(d: Duration, n: nat)
    requires d > 0 && 1 <= n
    requires d - n * SECOND < HALF_SECOND
    requires n == 1 || d - (n - 1) * SECOND >= HALF_SECOND
    ensures n == if RoundSeconds(d) >= 1 then RoundSeconds(d) else 1
    ensures d >= HALF_SECOND ==> -HALF_SECOND < n * SECOND - d <= HALF_SECOND
    ensures RoundSeconds(d - n * SECOND) == if d - n * SECOND <= -HALF_SECOND then -1 else 0
  {
    RoundSecondsNonPositive(d);
    if d >= HALF_SECOND {
      assert d - (n - 1) * SECOND >= HALF_SECOND;
      RoundSecondsUnique(d, n);
      if d - n * SECOND == -HALF_SECOND {
        RoundSecondsUnique(d - n * SECOND, -1);
      } else {
        RoundSecondsUnique(d - n * SECOND, 0);
      }
    } else {
      RoundSecondsUnique(d - n * SECOND, -1);
    }
  }

  /** Bookkeeping along a run: the time spent paused, the sub-second
      remainders dropped at each resume, the number of resumes, and when the
      current pause began. */
  datatype Ledger = Ledger(pausedFor: int, dropped: int, resumes: nat, pausedAt: int)

  function Account(t: Timer, events: seq<Event>): Ledger
    requires Inv(t)
    decreases |events|
  {
    if events == [] then Ledger(0, 0, 0, 0)
    else
      var n := |events| - 1;
      var s := Run(t, events[..n]);
      var l := Account(t, events[..n]);
      var e := events[n];
      if !Delivered(s, e) || e.Tick? then l
      else if s.paused then
        var frozen := s.leftSeconds;
        Ledger(l.pausedFor + (e.at - l.pausedAt), l.dropped + (frozen - TruncSeconds(frozen) * SECOND),
               l.resumes + 1, l.pausedAt)
      else l.(pausedAt := e.at)
  }

  /** The deadline moves only by the time spent paused, less the fractions
      of a second dropped at each resume, each under one second: a run with
      `n` resumes ends less than `n` seconds off the paused-adjusted
      deadline, and exactly on it when never resumed. */
  lemma {:induction false} DeadlineDrift(t: Timer, events: seq<Event>)
    requires Inv(t) && !t.paused
    ensures var s := Run(t, events);
      var l := Account(t, events);
      && s.endTime == t.endTime + l.pausedFor - l.dropped
      && (s.paused ==> s.leftSeconds == s.endTime - l.pausedAt)
      && -(l.resumes * SECOND) <= l.dropped <= l.resumes * SECOND
      && (l.resumes > 0 ==> -(l.resumes * SECOND) < l.dropped < l.resumes * SECOND)
    decreases |events|
  {
    if events != [] {
      DeadlineDrift(t, events[..|events| - 1]);
    }
  }

  /** The countdown as an object whose event handlers update its fields in
      place, as the loop's locals are updated. */
  class CountdownState {
    const msg: string
    const total: int
    var endTime: int
    var paused: bool
    var leftSeconds: Duration
    var left: int
    var ticking: bool
    var finished: bool
    var line: Render

    function State(): Timer
      reads this
    {
      Timer(total, endTime, paused, leftSeconds, left, ticking, finished, line)
    }

    ghost predicate Valid()
      reads this
    {
      Inv(State())
    }

    constructor (msg: string, d: Duration, now0: int, now1: int)
      ensures this.msg == msg && Valid()
      ensures State() == Start(d, now0, now1)
    {
      this.msg := msg;
      endTime := now0 + d;
      total := RoundSeconds(d);
      left := RoundSeconds(now0 + d - now1);
      line := Render(RoundSeconds(now0 + d - now1), RoundSeconds(d), false);
      paused := false;
      leftSeconds := 0;
      ticking := true;
      finished := false;
    }

    method Tick(now: int)
      requires Valid() && ticking
      modifies this
      ensures Valid() && State() == OnTick(old(State()), now)
    {
      leftSeconds := endTime - now;
      left := RoundSeconds(leftSeconds);
      line := Render(left, total, false);
      if left <= 0 {
        finished := true;
        ticking := false;
      }
    }

    method Space(now: int)
      requires Valid() && !finished
      modifies this
      ensures Valid() && State() == OnSpace(old(State()), now)
    {
      if paused {
        ticking := true;
        endTime := now + TruncSeconds(leftSeconds) * SECOND;
        left := RoundSeconds(leftSeconds);
        line := Render(left, total, false);
      } else {
        ticking := false;
        leftSeconds := endTime - now;
        left := RoundSeconds(leftSeconds);
        line := Render(left, total, true);
      }
      paused := !paused;
    }
  }

  /** `countDown`: start, then handle the events in arrival order until a
      tick ends the loop. `used` counts the events taken; if the events run
      out first, the countdown is still running. */
  method CountDown(msg: string, d: Duration, now0: int, now1: int, events: seq<Event>)
    returns (final: Timer, used: nat)
    ensures used <= |events|
    ensures final == Run(Start(d, now0, now1), events[..used])
    ensures final.finished ==> forall k :: 0 <= k < used ==> !Run(Start(d, now0, now1), events[..k]).finished
    ensures !final.finished ==> used == |events|
  {
    var c := new CountdownState(msg, d, now0, now1);
    used := 0;
    while used < |events| && !c.finished
      invariant used <= |events|
      invariant c.Valid() && c.State() == Run(Start(d, now0, now1), events[..used])
      invariant forall k :: 0 <= k < used ==> !Run(Start(d, now0, now1), events[..k]).finished
      decreases |events| - used
    {
      match events[used] {
        case Tick(now) =>
          if c.ticking {
            c.Tick(now);
          }
        case Press(now) =>
          c.Space(now);
      }
      assert events[..used + 1][..used] == events[..used];
      used := used + 1;
    }
    final := c.State();
  }
}
