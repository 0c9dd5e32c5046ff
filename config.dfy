/** The `Pomato` settings record, its defaults, the six `With*` options
    and `NewPomato`, which applies options to the defaults in order. */
module Config {
  import opened Durations

  const DEFAULT_POMODORO_TIME := 25
  const DEFAULT_BREAK_TIME := 5
  const DEFAULT_LONG_BREAK_TIME := 15
  const DEFAULT_LONG_BREAK_EACH := 4
  const DEFAULT_AUTO_START_NEXT := false
  const DEFAULT_SHOW_NOTIFICATION := true

  /** The settings of one cycle controller. Nothing is validated: any
      duration and any round count is stored as given. */
  datatype Pomato = Pomato(
    pomodoroTime: Duration,
    breakTime: Duration,
    longBreakTime: Duration,
    longBreakEach: int,
    autoStartNext: bool,
    showNotification: bool)

  /** The record `NewPomato` starts from, before any option is applied. */
  const DEFAULTS := Pomato(
    DEFAULT_POMODORO_TIME * MINUTE,
    DEFAULT_BREAK_TIME * MINUTE,
    DEFAULT_LONG_BREAK_TIME * MINUTE,
    DEFAULT_LONG_BREAK_EACH,
    DEFAULT_AUTO_START_NEXT,
    DEFAULT_SHOW_NOTIFICATION)

  /** The fields of a `Pomato`, and a uniform view of their values. */
  datatype Field =
    | PomodoroTimeField | BreakTimeField | LongBreakTimeField
    | LongBreakEachField | AutoStartNextField | ShowNotificationField

  datatype Value = Span(d: Duration) | Count(n: int) | Flag(b: bool)

  function Get(p: Pomato, f: Field): Value {
    match f
    case PomodoroTimeField => Span(p.pomodoroTime)
    case BreakTimeField => Span(p.breakTime)
    case LongBreakTimeField => Span(p.longBreakTime)
    case LongBreakEachField => Count(p.longBreakEach)
    case AutoStartNextField => Flag(p.autoStartNext)
    case ShowNotificationField => Flag(p.showNotification)
  }

  /** Two records that agree on every field are the same record. */
  lemma GetDetermines(p: Pomato, q: Pomato)
    requires forall f :: Get(p, f) == Get(q, f)
    ensures p == q
  {
    assert Get(p, PomodoroTimeField) == Get(q, PomodoroTimeField);
    assert Get(p, BreakTimeField) == Get(q, BreakTimeField);
    assert Get(p, LongBreakTimeField) == Get(q, LongBreakTimeField);
    assert Get(p, LongBreakEachField) == Get(q, LongBreakEachField);
    assert Get(p, AutoStartNextField) == Get(q, AutoStartNextField);
    assert Get(p, ShowNotificationField) == Get(q, ShowNotificationField);
  }

  /** An `Option`: one of the six closures of option.go, by the value it
      captures. */
  datatype Option =
    | WithPomodoroTime(d: Duration)
    | WithBreakTime(d: Duration)
    | WithLongBreakTime(d: Duration)
    | WithLongBreakEach(rounds: int)
    | WithAutoStartNext(auto: bool)
    | WithShowNotification(show: bool)

  /** The field an option assigns. */
  function Target(o: Option): Field {
    match o
    case WithPomodoroTime(_) => PomodoroTimeField
    case WithBreakTime(_) => BreakTimeField
    case WithLongBreakTime(_) => LongBreakTimeField
    case WithLongBreakEach(_) => LongBreakEachField
    case WithAutoStartNext(_) => AutoStartNextField
    case WithShowNotification(_) => ShowNotificationField
  }

  /** The value an option assigns to its field. */
  function Carried(o: Option): Value {
    match o
    case WithPomodoroTime(d) => Span(d)
    case WithBreakTime(d) => Span(d)
    case WithLongBreakTime(d) => Span(d)
    case WithLongBreakEach(rounds) => Count(rounds)
    case WithAutoStartNext(auto) => Flag(auto)
    case WithShowNotification(show) => Flag(show)
  }

  /** Running an option on a record: its own field takes the captured value
      verbatim, every other field keeps its value. */
  function Apply(p: Pomato, o: Option): (r: Pomato)
    ensures forall f :: Get(r, f) == if f == Target(o) then Carried(o) else Get(p, f)
  {
    match o
    case WithPomodoroTime(d) => p.(pomodoroTime := d)
    case WithBreakTime(d) => p.(breakTime := d)
    case WithLongBreakTime(d) => p.(longBreakTime := d)
    case WithLongBreakEach(rounds) => p.(longBreakEach := rounds)
    case WithAutoStartNext(auto) => p.(autoStartNext := auto)
    case WithShowNotification(show) => p.(showNotification := show)
  }

  /** Applying the same option twice is applying it once. */
  lemma ApplyIdempotent(p: Pomato, o: Option)
    ensures Apply(Apply(p, o), o) == Apply(p, o)
  {
    GetDetermines(Apply(Apply(p, o), o), Apply(p, o));
  }

  /** Of two options on the same field, the later one decides. */
  lemma ApplyLaterWins(p: Pomato, a: Option, b: Option)
    requires Target(a) == Target(b)
    ensures Apply(Apply(p, a), b) == Apply(p, b)
  {
    GetDetermines(Apply(Apply(p, a), b), Apply(p, b));
  }

  /** Options on different fields commute. */
  lemma ApplyCommutes(p: Pomato, a: Option, b: Option)
    requires Target(a) != Target(b)
    ensures Apply(Apply(p, a), b) == Apply(Apply(p, b), a)
  {
    GetDetermines(Apply(Apply(p, a), b), Apply(Apply(p, b), a));
  }

  /** The record after running `options` on `p` from first to last. */
  function ApplyAll(p: Pomato, options: seq<Option>): Pomato
    decreases |options|
  {
    if options == [] then p
    else Apply(ApplyAll(p, options[..|options| - 1]), options[|options| - 1])
  }

  /** Running `a + b` is running `a`, then `b`. */
  lemma {:induction false} ApplyAllAppend(p: Pomato, a: seq<Option>, b: seq<Option>)
    ensures ApplyAll(p, a + b) == ApplyAll(ApplyAll(p, a), b)
    decreases |b|
  {
    if b != [] {
      var b' := b[..|b| - 1];
      assert (a + b)[..|a + b| - 1] == a + b';
      ApplyAllAppend(p, a, b');
    } else {
      assert a + b == a;
    }
  }

  /** A field no option assigns keeps the value it started with. */
  lemma {:induction false} ApplyAllUntouched(p: Pomato, options: seq<Option>, f: Field)
    requires forall k :: 0 <= k < |options| ==> Target(options[k]) != f
    ensures Get(ApplyAll(p, options), f) == Get(p, f)
    decreases |options|
  {
    if options != [] {
      ApplyAllUntouched(p, options[..|options| - 1], f);
    }
  }

  /** A field some option assigns holds the value of the last such option. */
  lemma {:induction false} ApplyAllLastWins(p: Pomato, options: seq<Option>, k: nat)
    requires k < |options|
    requires forall j :: k < j < |options| ==> Target(options[j]) != Target(options[k])
    ensures Get(ApplyAll(p, options), Target(options[k])) == Carried(options[k])
    decreases |options|
  {
    var n := |options| - 1;
    if k < n {
      assert options[..n][k] == options[k];
      ApplyAllLastWins(p, options[..n], k);
    }
  }

  /** `NewPomato`: start from the defaults and run each option in turn. */
  method NewPomato(options: seq<Option>) returns (p: Pomato)
    ensures p == ApplyAll(DEFAULTS, options)
    ensures options == [] ==> p == Pomato(25 * MINUTE, 5 * MINUTE, 15 * MINUTE, 4, false, true)
  {
    p := DEFAULTS;
    for i := 0 to |options|
      invariant p == ApplyAll(DEFAULTS, options[..i])
    {
      assert options[..i + 1][..i] == options[..i];
      p := Apply(p, options[i]);
    }
    assert options[..|options|] == options;
  }
}
