/** `buildOptions` of the command: turns the configured values into the
    option list handed to `NewPomato`. The configuration lookups are an
    input record instead of calls into the configuration library. */
module Cli {
  import opened Durations
  import opened Config

  /** What the configuration library reports for a boolean key: whether
      the key is present in the configuration file, and its value. */
  datatype Lookup = Lookup(inConfig: bool, value: bool)

  /** The configured values `buildOptions` reads, one per key. */
  datatype Configured = Configured(
    timeUnit: string,
    pomodoroTime: int,
    breakTime: int,
    longBreakTime: int,
    longBreakEach: int,
    autostartNext: Lookup,
    showNotification: Lookup)

  /** The multiplier for the three numeric durations. */
  function TimeUnit(s: string): (u: Duration)
    ensures u == SECOND <==> s == "s"
    ensures u == MINUTE <==> s != "s"
  {
    if s == "s" then SECOND else MINUTE
  }

  /** Whether `buildOptions` emits an option for field `f`. */
  predicate Produced(c: Configured, f: Field) {
    match f
    case PomodoroTimeField => c.pomodoroTime > 0
    case BreakTimeField => c.breakTime > 0
    case LongBreakTimeField => c.longBreakTime > 0
    case LongBreakEachField => c.longBreakEach > 0
    case AutoStartNextField => c.autostartNext.inConfig
    case ShowNotificationField => c.showNotification.inConfig
  }

  /** The value an emitted option for `f` carries. */
  function Wanted(c: Configured, f: Field): Value {
    var u := TimeUnit(c.timeUnit);
    match f
    case PomodoroTimeField => Span(c.pomodoroTime * u)
    case BreakTimeField => Span(c.breakTime * u)
    case LongBreakTimeField => Span(c.longBreakTime * u)
    case LongBreakEachField => Count(c.longBreakEach)
    case AutoStartNextField => Flag(c.autostartNext.value)
    case ShowNotificationField => Flag(c.showNotification.value)
  }

  /** The position of a field in the fixed order of `buildOptions`. */
  function Rank(f: Field): nat {
    match f
    case PomodoroTimeField => 0
    case BreakTimeField => 1
    case LongBreakTimeField => 2
    case LongBreakEachField => 3
    case AutoStartNextField => 4
    case ShowNotificationField => 5
  }

  /** The field at position `r` of that order. */
  function FieldAt(r: nat): (f: Field)
    requires r < 6
    ensures Rank(f) == r
  {
    [PomodoroTimeField, BreakTimeField, LongBreakTimeField,
     LongBreakEachField, AutoStartNextField, ShowNotificationField][r]
  }

  /** The option `buildOptions` appends for field `f` when its guard holds. */
  function OptionFor(c: Configured, f: Field): (o: Option)
    ensures Target(o) == f && Carried(o) == Wanted(c, f)
  {
    var u := TimeUnit(c.timeUnit);
    match f
    case PomodoroTimeField => WithPomodoroTime(c.pomodoroTime * u)
    case BreakTimeField => WithBreakTime(c.breakTime * u)
    case LongBreakTimeField => WithLongBreakTime(c.longBreakTime * u)
    case LongBreakEachField => WithLongBreakEach(c.longBreakEach)
    case AutoStartNextField => WithAutoStartNext(c.autostartNext.value)
    case ShowNotificationField => WithShowNotification(c.showNotification.value)
  }

  /** The list after the guarded appends for the first `r` fields. */
  function Built(c: Configured, r: nat): seq<Option>
    requires r <= 6
  {
    if r == 0 then []
    else
      var f := FieldAt(r - 1);
      Built(c, r - 1) + (if Produced(c, f) then [OptionFor(c, f)] else [])
  }

  /** The option list `buildOptions` returns. */
  function Options(c: Configured): seq<Option> {
    Built(c, 6)
  }

  /** `s` is a list `buildOptions` could have built from the first `r`
      fields: in field order, at most one option per field, an option for
      each of those fields exactly when its guard holds, carrying the
      configured value. */
  ghost predicate Shaped(c: Configured, s: seq<Option>, r: nat) {
    && |s| <= r
    && (forall j, k :: 0 <= j < k < |s| ==> Rank(Target(s[j])) < Rank(Target(s[k])))
    && (forall k :: 0 <= k < |s| ==> Rank(Target(s[k])) < r && Carried(s[k]) == Wanted(c, Target(s[k])))
    && (forall f :: Rank(f) < r ==> ((exists k :: 0 <= k < |s| && Target(s[k]) == f) <==> Produced(c, f)))
  }

  /** One guarded append of `buildOptions` extends a shaped list by the
      next field. */
  lemma ShapedAppend(c: Configured, s: seq<Option>, r: nat)
    requires r < 6 && Shaped(c, s, r)
    ensures var f := FieldAt(r);
      Shaped(c, s + (if Produced(c, f) then [OptionFor(c, f)] else []), r + 1)
  {
    var o := OptionFor(c, FieldAt(r));
    var t := s + (if Produced(c, FieldAt(r)) then [o] else []);
    forall f | Rank(f) < r + 1
      ensures (exists k :: 0 <= k < |t| && Target(t[k]) == f) <==> Produced(c, f)
    {
      if Rank(f) == r {
        assert f == FieldAt(r);
        if Produced(c, f) {
          assert Target(t[|s|]) == f;
        }
      } else if exists k :: 0 <= k < |s| && Target(s[k]) == f {
        var k :| 0 <= k < |s| && Target(s[k]) == f;
        assert Target(t[k]) == f;
      }
    }
  }

  lemma {:induction false} BuiltShaped(c: Configured, r: nat)
    requires r <= 6
    ensures Shaped(c, Built(c, r), r)
  {
    if r > 0 {
      BuiltShaped(c, r - 1);
      ShapedAppend(c, Built(c, r - 1), r - 1);
    }
  }

  /** The list holds at most one option per field, in the fixed field
      order; an option for a field is present exactly when its guard
      holds, and then carries the configured value. */
  lemma OptionsShape(c: Configured)
    ensures |Options(c)| <= 6
    ensures forall j, k :: 0 <= j < k < |Options(c)| ==>
      Rank(Target(Options(c)[j])) < Rank(Target(Options(c)[k]))
    ensures forall f :: (exists k :: 0 <= k < |Options(c)| && Target(Options(c)[k]) == f) <==> Produced(c, f)
    ensures forall k :: 0 <= k < |Options(c)| ==> Carried(Options(c)[k]) == Wanted(c, Target(Options(c)[k]))
  {
    var opts := Options(c);
    BuiltShaped(c, 6);
    assert Shaped(c, opts, 6);
    forall f
      ensures (exists k :: 0 <= k < |opts| && Target(opts[k]) == f) <==> Produced(c, f)
    {
      assert Rank(f) < 6;
    }
  }

  /** `buildOptions`: grows the list through six guarded appends. */
  method BuildOptions(c: Configured) returns (opts: seq<Option>)
    ensures opts == Options(c)
  {
    opts := [];
    var timeUnit := MINUTE;
    if c.timeUnit == "s" {
      timeUnit := SECOND;
    }
    assert timeUnit == TimeUnit(c.timeUnit);
    if c.pomodoroTime > 0 {
      opts := opts + [WithPomodoroTime(c.pomodoroTime * timeUnit)];
    }
    assert opts == Built(c, 1);
    if c.breakTime > 0 {
      opts := opts + [WithBreakTime(c.breakTime * timeUnit)];
    }
    assert opts == Built(c, 2);
    if c.longBreakTime > 0 {
      opts := opts + [WithLongBreakTime(c.longBreakTime * timeUnit)];
    }
    assert opts == Built(c, 3);
    if c.longBreakEach > 0 {
      opts := opts + [WithLongBreakEach(c.longBreakEach)];
    }
    assert opts == Built(c, 4);
    if c.autostartNext.inConfig {
      opts := opts + [WithAutoStartNext(c.autostartNext.value)];
    }
    assert opts == Built(c, 5);
    if c.showNotification.inConfig {
      opts := opts + [WithShowNotification(c.showNotification.value)];
    }
    assert opts == Built(c, 6);
  }

  /** Field by field: an option that was emitted decides its field, any
      other field keeps its default. */
  lemma StartupField(c: Configured, f: Field)
    ensures Get(ApplyAll(DEFAULTS, Options(c)), f) == if Produced(c, f) then Wanted(c, f) else Get(DEFAULTS, f)
  {
    var opts := Options(c);
    OptionsShape(c);
    if Produced(c, f) {
      var k :| 0 <= k < |opts| && Target(opts[k]) == f;
      ApplyAllLastWins(DEFAULTS, opts, k);
    } else {
      ApplyAllUntouched(DEFAULTS, opts, f);
    }
  }

  /** The settings the command starts with: each configured positive
      number replaces its default, each boolean present in the
      configuration file replaces its default, everything else keeps the
      default. */
  lemma StartupSettings(c: Configured)
    ensures var u := TimeUnit(c.timeUnit);
      ApplyAll(DEFAULTS, Options(c)) == Pomato(
        if c.pomodoroTime > 0 then c.pomodoroTime * u else 25 * MINUTE,
        if c.breakTime > 0 then c.breakTime * u else 5 * MINUTE,
        if c.longBreakTime > 0 then c.longBreakTime * u else 15 * MINUTE,
        if c.longBreakEach > 0 then c.longBreakEach else 4,
        if c.autostartNext.inConfig then c.autostartNext.value else false,
        if c.showNotification.inConfig then c.showNotification.value else true)
  {
    var p := ApplyAll(DEFAULTS, Options(c));
    var u := TimeUnit(c.timeUnit);
    var q := Pomato(
      if c.pomodoroTime > 0 then c.pomodoroTime * u else 25 * MINUTE,
      if c.breakTime > 0 then c.breakTime * u else 5 * MINUTE,
      if c.longBreakTime > 0 then c.longBreakTime * u else 15 * MINUTE,
      if c.longBreakEach > 0 then c.longBreakEach else 4,
      if c.autostartNext.inConfig then c.autostartNext.value else false,
      if c.showNotification.inConfig then c.showNotification.value else true);
    StartupField(c, PomodoroTimeField);
    StartupField(c, BreakTimeField);
    StartupField(c, LongBreakTimeField);
    StartupField(c, LongBreakEachField);
    StartupField(c, AutoStartNextField);
    StartupField(c, ShowNotificationField);
  }
}
