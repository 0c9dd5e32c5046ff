/** `pomodoroMode`: one round of the work/break cycle, as the sequence of
    calls it makes. The controller repeats the same round forever, since
    the settings never change. */
module Cycle {
  import opened Durations
  import opened Config

  /** The four notification bodies. */
  datatype Message = LongBreakStart | LongBreakEnd | BreakStart | BreakEnd

  function Body(m: Message): string {
    match m
    case LongBreakStart => "Relex and have a long break!"
    case LongBreakEnd => "Long break finished! Continue to work."
    case BreakStart => "Have a break!"
    case BreakEnd => "Break finished!"
  }

  /** The segment a countdown times; with the ordinal it makes the label. */
  datatype Kind = Pomodoro | ShortBreak | LongBreak

  /** `notifyStart` or `notifyEnd`. */
  datatype Note = StartNote | EndNote

  /** One call made by the controller. */
  datatype Action =
    | RunCountdown(kind: Kind, ordinal: int, duration: Duration)
    | Notify(note: Note, message: Message)
    | WaitReturn

  /** A notification, when notifications are on. */
  function Notice(p: Pomato, note: Note, m: Message): seq<Action> {
    if p.showNotification then [Notify(note, m)] else []
  }

  /** Whether iteration `i` ends in the long break. */
  predicate IsLast(p: Pomato, i: nat) {
    i == p.longBreakEach - 1
  }

  /** The break countdown of iteration `i`. */
  function Break(p: Pomato, i: nat): Action {
    if IsLast(p, i) then RunCountdown(LongBreak, i + 1, p.longBreakTime)
    else RunCountdown(ShortBreak, i + 1, p.breakTime)
  }

  /** The notification before the break. */
  function BeforeBreak(p: Pomato, i: nat): seq<Action> {
    Notice(p, StartNote, if IsLast(p, i) then LongBreakStart else BreakStart)
  }

  /** The notification after the break: the long break's is a start
      notification too. */
  function AfterBreak(p: Pomato, i: nat): seq<Action> {
    if IsLast(p, i) then Notice(p, StartNote, LongBreakEnd) else Notice(p, EndNote, BreakEnd)
  }

  /** The wait after a short break, unless `autoStartNext`. */
  function WaitAfter(p: Pomato, i: nat): seq<Action> {
    if IsLast(p, i) || p.autoStartNext then [] else [WaitReturn]
  }

  /** Iteration `i` of the inner loop. */
  function Segment(p: Pomato, i: nat): seq<Action> {
    [RunCountdown(Pomodoro, i + 1, p.pomodoroTime)] + BeforeBreak(p, i) + [Break(p, i)] + AfterBreak(p, i) + WaitAfter(p, i)
  }

  /** The number of passes the inner loop makes: none when
      `longBreakEach <= 0`. */
  function Iterations(p: Pomato): (n: nat)
    ensures n == 0 <==> p.longBreakEach <= 0
    ensures n > 0 ==> n == p.longBreakEach
  {
    if p.longBreakEach > 0 then p.longBreakEach else 0
  }

  /** The first `n` iterations of the inner loop. */
  function Segments(p: Pomato, n: nat): seq<Action> {
    if n == 0 then [] else Segments(p, n - 1) + Segment(p, n - 1)
  }

  /** One pass of the outer loop: the inner loop, then the wait for a new
      round. */
  function Round(p: Pomato): seq<Action> {
    Segments(p, Iterations(p)) + [WaitReturn]
  }

  /** One pass of the outer loop of `pomodoroMode`. */
  method PomodoroRound(p: Pomato) returns (trace: seq<Action>)
    ensures trace == Round(p)
  {
    trace := [];
    var i := 0;
    while i < p.longBreakEach
      invariant i == 0 || i <= p.longBreakEach
      invariant trace == Segments(p, i)
    {
      var calls := [RunCountdown(Pomodoro, i + 1, p.pomodoroTime)];
      if i == p.longBreakEach - 1 {
        if p.showNotification {
          calls := calls + [Notify(StartNote, LongBreakStart)];
        }
        calls := calls + [RunCountdown(LongBreak, i + 1, p.longBreakTime)];
        if p.showNotification {
          calls := calls + [Notify(StartNote, LongBreakEnd)];
        }
      } else {
        if p.showNotification {
          calls := calls + [Notify(StartNote, BreakStart)];
        }
        calls := calls + [RunCountdown(ShortBreak, i + 1, p.breakTime)];
        if p.showNotification {
          calls := calls + [Notify(EndNote, BreakEnd)];
        }
        if !p.autoStartNext {
          calls := calls + [WaitReturn];
        }
      }
      assert calls == Segment(p, i);
      trace := trace + calls;
      i := i + 1;
    }
    trace := trace + [WaitReturn];
  }

  // ---- Projections of a trace onto one kind of call ----

  datatype Tag = Timed | Notified | Waited

  function TagOf(a: Action): Tag {
    match a
    case RunCountdown(_, _, _) => Timed
    case Notify(_, _) => Notified
    case WaitReturn => Waited
  }

  /** The calls of kind `g` in `t`, in order. */
  function Only(t: seq<Action>, g: Tag): (r: seq<Action>)
    ensures |r| <= |t|
  {
    if t == [] then []
    else (if TagOf(t[0]) == g then [t[0]] else []) + Only(t[1..], g)
  }

  lemma {:induction false} OnlyAppend(a: seq<Action>, b: seq<Action>, g: Tag)
    ensures Only(a + b, g) == Only(a, g) + Only(b, g)
    decreases |a|
  {
    if a != [] {
      assert (a + b)[1..] == a[1..] + b;
      OnlyAppend(a[1..], b, g);
    } else {
      assert a + b == b;
    }
  }

  /** The `j`-th countdown of a round: pomodoros and breaks alternate, each
      break has its pomodoro's ordinal, and only the last break is long. */
  function NthCountdown(p: Pomato, j: nat): Action {
    var i := j / 2;
    if j % 2 == 0 then RunCountdown(Pomodoro, i + 1, p.pomodoroTime)
    else if i == p.longBreakEach - 1 then RunCountdown(LongBreak, i + 1, p.longBreakTime)
    else RunCountdown(ShortBreak, i + 1, p.breakTime)
  }

  /** The `j`-th notification of a round: a start and an end around each
      short break, two starts around the long break. */
  function NthNotification(p: Pomato, j: nat): Action {
    var i := j / 2;
    if i == p.longBreakEach - 1 then
      Notify(StartNote, if j % 2 == 0 then LongBreakStart else LongBreakEnd)
    else if j % 2 == 0 then Notify(StartNote, BreakStart)
    else Notify(EndNote, BreakEnd)
  }

  /** Only on a sequence of at most one call. */
  lemma OnlyShort(t: seq<Action>, g: Tag)
    requires |t| <= 1
    ensures Only(t, g) == if t != [] && TagOf(t[0]) == g then t else []
  {
    if t != [] {
      assert t[1..] == [];
    }
  }

  lemma SegmentOnly(p: Pomato, i: nat, g: Tag)
    ensures Only(Segment(p, i), g)
      == Only([RunCountdown(Pomodoro, i + 1, p.pomodoroTime)], g) + Only(BeforeBreak(p, i), g)
         + Only([Break(p, i)], g) + Only(AfterBreak(p, i), g) + Only(WaitAfter(p, i), g)
  {
    var pom := [RunCountdown(Pomodoro, i + 1, p.pomodoroTime)];
    OnlyAppend(pom, BeforeBreak(p, i), g);
    OnlyAppend(pom + BeforeBreak(p, i), [Break(p, i)], g);
    OnlyAppend(pom + BeforeBreak(p, i) + [Break(p, i)], AfterBreak(p, i), g);
    OnlyAppend(pom + BeforeBreak(p, i) + [Break(p, i)] + AfterBreak(p, i), WaitAfter(p, i), g);
    OnlyShort(pom, g);
    OnlyShort(BeforeBreak(p, i), g);
    OnlyShort([Break(p, i)], g);
    OnlyShort(AfterBreak(p, i), g);
    OnlyShort(WaitAfter(p, i), g);
  }

  /** The two countdowns of a segment. */
  lemma SegmentCountdowns(p: Pomato, i: nat)
    ensures Only(Segment(p, i), Timed) == [RunCountdown(Pomodoro, i + 1, p.pomodoroTime), Break(p, i)]
  {
    SegmentOnly(p, i, Timed);
  }

  /** The notifications of a segment. */
  lemma SegmentNotifications(p: Pomato, i: nat)
    ensures Only(Segment(p, i), Notified) == BeforeBreak(p, i) + AfterBreak(p, i)
  {
    SegmentOnly(p, i, Notified);
  }

  /** With notifications on, a segment's two are the next two of the
      round. */
  lemma SegmentNotified(p: Pomato, i: nat)
    requires p.showNotification
    ensures BeforeBreak(p, i) + AfterBreak(p, i) == [NthNotification(p, 2 * i), NthNotification(p, 2 * i + 1)]
  {
    assert (2 * i) / 2 == i && (2 * i + 1) / 2 == i && (2 * i) % 2 == 0 && (2 * i + 1) % 2 == 1;
  }

  /** The waits of a segment. */
  lemma SegmentWaits(p: Pomato, i: nat)
    ensures Only(Segment(p, i), Waited) == WaitAfter(p, i)
  {
    SegmentOnly(p, i, Waited);
  }

  /** The countdowns of the first `n` iterations, iteration by iteration. */
  function Countdowns(p: Pomato, n: nat): seq<Action> {
    if n == 0 then [] else Countdowns(p, n - 1) + [RunCountdown(Pomodoro, n, p.pomodoroTime), Break(p, n - 1)]
  }

  /** The notifications of the first `n` iterations, iteration by iteration. */
  function Notices(p: Pomato, n: nat): seq<Action> {
    if n == 0 then [] else Notices(p, n - 1) + BeforeBreak(p, n - 1) + AfterBreak(p, n - 1)
  }

  lemma {:induction false} SegmentsCountdowns(p: Pomato, n: nat)
    ensures Only(Segments(p, n), Timed) == Countdowns(p, n)
  {
    if n > 0 {
      SegmentsCountdowns(p, n - 1);
      OnlyAppend(Segments(p, n - 1), Segment(p, n - 1), Timed);
      SegmentCountdowns(p, n - 1);
    }
  }

  lemma {:induction false} SegmentsNotifications(p: Pomato, n: nat)
    ensures Only(Segments(p, n), Notified) == Notices(p, n)
  {
    if n > 0 {
      SegmentsNotifications(p, n - 1);
      OnlyAppend(Segments(p, n - 1), Segment(p, n - 1), Notified);
      SegmentNotifications(p, n - 1);
    }
  }

  /** Two countdowns per iteration, in the order of NthCountdown. */
  lemma {:induction false} CountdownsAt(p: Pomato, n: nat)
    ensures |Countdowns(p, n)| == 2 * n
    ensures forall j :: 0 <= j < 2 * n ==> Countdowns(p, n)[j] == NthCountdown(p, j)
  {
    if n > 0 {
      CountdownsAt(p, n - 1);
      var i := n - 1;
      assert (2 * i) / 2 == i && (2 * i + 1) / 2 == i && (2 * i) % 2 == 0 && (2 * i + 1) % 2 == 1;
      assert [RunCountdown(Pomodoro, n, p.pomodoroTime), Break(p, i)] == [NthCountdown(p, 2 * i), NthCountdown(p, 2 * i + 1)];
    }
  }

  /** None when notifications are off; otherwise two per iteration, in
      the order of NthNotification. */
  lemma {:induction false} NoticesAt(p: Pomato, n: nat)
    ensures |Notices(p, n)| == if p.showNotification then 2 * n else 0
    ensures p.showNotification ==> forall j :: 0 <= j < 2 * n ==> Notices(p, n)[j] == NthNotification(p, j)
  {
    if n > 0 {
      NoticesAt(p, n - 1);
      var i := n - 1;
      if p.showNotification {
        SegmentNotified(p, i);
        assert Notices(p, n) == Notices(p, i) + [NthNotification(p, 2 * i), NthNotification(p, 2 * i + 1)];
      }
    }
  }

  /** The waits of the first `n` iterations: one after each short break,
      unless `autoStartNext`. */
  lemma {:induction false} SegmentsWaits(p: Pomato, n: nat)
    requires n <= Iterations(p)
    ensures |Only(Segments(p, n), Waited)|
      == if p.autoStartNext || n == 0 then 0 else if n == p.longBreakEach then n - 1 else n
  {
    if n > 0 {
      SegmentsWaits(p, n - 1);
      OnlyAppend(Segments(p, n - 1), Segment(p, n - 1), Waited);
      SegmentWaits(p, n - 1);
    }
  }

  /** The calls of kind `g` in a round: those of its iterations, then the
      final wait when `g` is `Waited`. */
  lemma RoundOnly(p: Pomato, g: Tag)
    ensures Only(Round(p), g) == Only(Segments(p, Iterations(p)), g) + (if g == Waited then [WaitReturn] else [])
  {
    OnlyAppend(Segments(p, Iterations(p)), [WaitReturn], g);
    OnlyShort([WaitReturn], g);
  }

  /** The countdowns of a round: `longBreakEach` pomodoros with ordinals
      1, 2, ..., each of the pomodoro duration and each followed by a break
      with its ordinal; the last break is the long one. None at all when
      `longBreakEach <= 0`. */
  lemma RoundCountdowns(p: Pomato)
    ensures |Only(Round(p), Timed)| == if p.longBreakEach > 0 then 2 * p.longBreakEach else 0
    ensures forall j :: 0 <= j < |Only(Round(p), Timed)| ==> Only(Round(p), Timed)[j] == NthCountdown(p, j)
  {
    RoundOnly(p, Timed);
    SegmentsCountdowns(p, Iterations(p));
    CountdownsAt(p, Iterations(p));
  }

  /** Notifications happen exactly when they are switched on: then two per
      iteration, in the order of NthNotification. */
  lemma RoundNotifications(p: Pomato)
    ensures |Only(Round(p), Notified)|
      == if p.showNotification && p.longBreakEach > 0 then 2 * p.longBreakEach else 0
    ensures forall j :: 0 <= j < |Only(Round(p), Notified)| ==> Only(Round(p), Notified)[j] == NthNotification(p, j)
  {
    RoundOnly(p, Notified);
    SegmentsNotifications(p, Iterations(p));
    NoticesAt(p, Iterations(p));
  }

  /** A round waits after each short break unless `autoStartNext`, and
      always once at its end; with `longBreakEach <= 0` that final wait is
      the whole round. */
  lemma RoundWaits(p: Pomato)
    ensures |Only(Round(p), Waited)|
      == if p.longBreakEach <= 0 then 1 else (if p.autoStartNext then 0 else p.longBreakEach - 1) + 1
    ensures Round(p)[|Round(p)| - 1] == WaitReturn
    ensures p.longBreakEach <= 0 ==> Round(p) == [WaitReturn]
  {
    RoundOnly(p, Waited);
    SegmentsWaits(p, Iterations(p));
  }

  // ---- Where each iteration sits in a round ----

  lemma {:induction false} SegmentsPrefix(p: Pomato, m: nat, n: nat)
    requires m <= n
    ensures |Segments(p, m)| <= |Segments(p, n)|
    ensures Segments(p, n)[..|Segments(p, m)|] == Segments(p, m)
    decreases n
  {
    if m < n {
      SegmentsPrefix(p, m, n - 1);
      var a, b := Segments(p, n - 1), Segment(p, n - 1);
      assert (a + b)[..|a|] == a;
      assert Segments(p, n)[..|Segments(p, m)|] == a[..|Segments(p, m)|];
    }
  }

  /** Iteration `i` of a round occupies the calls between the end of the
      first `i` iterations and the end of the first `i + 1`. */
  lemma RoundSegment(p: Pomato, i: nat)
    requires i < Iterations(p)
    ensures |Segments(p, i)| + |Segment(p, i)| == |Segments(p, i + 1)| <= |Round(p)|
    ensures Round(p)[|Segments(p, i)|..|Segments(p, i + 1)|] == Segment(p, i)
  {
    var n := Iterations(p);
    SegmentsPrefix(p, i + 1, n);
    var a, b := Segments(p, i), Segment(p, i);
    var r := Round(p);
    assert r[..|a + b|] == a + b;
    assert r[|a|..|a + b|] == (a + b)[|a|..];
    assert (a + b)[|a|..] == b;
  }

  /** Inside iteration `i`: the pomodoro comes first and its break second,
      or third when a notification comes between them. With notifications
      on, a short break is preceded by a start notification and followed
      by an end notification, the long break preceded and followed by
      start notifications. The iteration ends in a wait exactly when its
      break is short and `autoStartNext` is off. */
  lemma SegmentNeighbours(p: Pomato, i: nat)
    ensures var s, b := Segment(p, i), if p.showNotification then 2 else 1;
      && |s| == 2 * b + (if !IsLast(p, i) && !p.autoStartNext then 1 else 0)
      && s[0] == RunCountdown(Pomodoro, i + 1, p.pomodoroTime)
      && s[b].RunCountdown? && s[b].ordinal == i + 1
      && (s[b].kind == LongBreak <==> i == p.longBreakEach - 1)
      && s[b].kind != Pomodoro
      && (p.showNotification ==> s[1] == Notify(StartNote, if IsLast(p, i) then LongBreakStart else BreakStart))
      && (p.showNotification ==>
            s[3] == Notify(if IsLast(p, i) then StartNote else EndNote, if IsLast(p, i) then LongBreakEnd else BreakEnd))
      && (s[|s| - 1] == WaitReturn <==> !IsLast(p, i) && !p.autoStartNext)
  {
  }
}
