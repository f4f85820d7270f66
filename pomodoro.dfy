// The Pomodoro timer: a work/short-break/long-break session machine driven by one-second ticks,
// with its settings kept in the configuration table under `pomodoro_` keys.
//
// Durations are JavaScript numbers: a setting stored in the table is read back with `parseInt`,
// so it can be NaN, and NaN propagates through the arithmetic as it does in the service.
// The rxjs `interval` that calls `tick` is live exactly while the session is running (every
// path that clears `isRunning` unsubscribes it first), so `Tick` requires a running session;
// the delayed auto-start (`setTimeout(startTimer, 1000)`) is returned as a flag for the caller.

module Pomodoro {
  import opened Wrappers
  import opened Text
  import ConfigRecords
  import opened DateUtils

  datatype SessionType = Work | ShortBreak | LongBreak

  /** `PomodoroSession`. */
  datatype Session = Session(
    kind: SessionType,
    duration: Num,
    remaining: Num,
    isRunning: bool,
    isPaused: bool,
    currentRound: int,
    completedPomodoros: int)

  /** `PomodoroConfig`: durations in minutes. */
  datatype PomodoroConfig = PomodoroConfig(
    workDuration: Num,
    shortBreakDuration: Num,
    longBreakDuration: Num,
    longBreakInterval: Num,
    autoStartBreaks: bool,
    autoStartPomodoros: bool,
    soundEnabled: bool,
    notificationsEnabled: bool,
    napalm: bool)

  /** `Partial<PomodoroConfig>`: the properties `updateConfig` is given. */
  datatype ConfigPatch = ConfigPatch(
    workDuration: Option<Num>,
    shortBreakDuration: Option<Num>,
    longBreakDuration: Option<Num>,
    longBreakInterval: Option<Num>,
    autoStartBreaks: Option<bool>,
    autoStartPomodoros: Option<bool>,
    soundEnabled: Option<bool>,
    notificationsEnabled: Option<bool>,
    napalm: Option<bool>)

  const DEFAULT_CONFIG: PomodoroConfig :=
    PomodoroConfig(Int(25), Int(5), Int(15), Int(4), false, false, true, true, false)

  const WORK_KEY: string := "pomodoro_workDuration"
  const SHORT_KEY: string := "pomodoro_shortBreakDuration"
  const LONG_KEY: string := "pomodoro_longBreakDuration"
  const INTERVAL_KEY: string := "pomodoro_longBreakInterval"
  const AUTO_BREAKS_KEY: string := "pomodoro_autoStartBreaks"
  const AUTO_POMODOROS_KEY: string := "pomodoro_autoStartPomodoros"
  const SOUND_KEY: string := "pomodoro_soundEnabled"
  const NOTIFICATIONS_KEY: string := "pomodoro_notificationsEnabled"
  const NAPALM_KEY: string := "pomodoro_napalm"

  /** `minutes * 60`. */
  function Seconds(minutes: Num): Num {
    if minutes.NaN? then NaN else Int(minutes.v * 60)
  }

  /** The length in seconds of a session of the given type. */
  function DurationOf(cfg: PomodoroConfig, kind: SessionType): Num {
    match kind
    case Work => Seconds(cfg.workDuration)
    case ShortBreak => Seconds(cfg.shortBreakDuration)
    case LongBreak => Seconds(cfg.longBreakDuration)
  }

  /** `completed % interval === 0`: false when the interval is NaN or 0 (the remainder is NaN). */
  predicate IsLongBreak(completed: int, interval: Num)
    ensures IsLongBreak(completed, interval) ==> interval.Int? && interval.v != 0
    ensures interval.Int? && interval.v > 0 && 0 < completed < interval.v ==> !IsLongBreak(completed, interval)
  {
    interval.Int? && interval.v != 0 && completed % interval.v == 0
  }

  /** A session just started: full length for its type, neither running nor paused. */
  predicate Fresh(s: Session, cfg: PomodoroConfig) {
    s.duration == DurationOf(cfg, s.kind) && s.remaining == s.duration && !s.isRunning && !s.isPaused
  }

  /** The counters agree: the round is one past the number of completed pomodoros. */
  predicate Counted(s: Session) {
    s.completedPomodoros >= 0 && s.currentRound == s.completedPomodoros + 1
  }

  /** `startNextSession(kind)` before its `updates`: the other properties are kept. */
  function StartNext(s: Session, cfg: PomodoroConfig, kind: SessionType): (r: Session)
    ensures Fresh(r, cfg) && r.kind == kind
    ensures r.currentRound == s.currentRound && r.completedPomodoros == s.completedPomodoros
  {
    var d := DurationOf(cfg, kind);
    s.(kind := kind, duration := d, remaining := d, isRunning := false, isPaused := false)
  }

  /** Whether `startNextSession(kind)` schedules `startTimer`. */
  predicate AutoStart(cfg: PomodoroConfig, kind: SessionType) {
    (kind == Work && cfg.autoStartPomodoros) || (kind != Work && cfg.autoStartBreaks)
  }

  /** The session `completeSession` moves to. */
  function Complete(s: Session, cfg: PomodoroConfig): (r: Session)
    ensures Fresh(r, cfg)
    ensures r.kind == Work <==> s.kind != Work
    ensures s.kind == Work ==>
      r.completedPomodoros == s.completedPomodoros + 1 && r.currentRound == s.currentRound + 1
      && (r.kind == LongBreak <==> IsLongBreak(s.completedPomodoros + 1, cfg.longBreakInterval))
    ensures s.kind != Work ==>
      r.completedPomodoros == s.completedPomodoros && r.currentRound == s.currentRound
    ensures Counted(s) ==> Counted(r)
  {
    if s.kind == Work then
      var n := s.completedPomodoros + 1;
      var next := if IsLongBreak(n, cfg.longBreakInterval) then LongBreak else ShortBreak;
      StartNext(s, cfg, next).(completedPomodoros := n, currentRound := s.currentRound + 1)
    else
      StartNext(s, cfg, Work)
  }

  /** The session after one `tick`: one second less, never below zero, and completed on reaching
      zero; a NaN remaining time never reaches zero. */
  function Ticked(s: Session, cfg: PomodoroConfig): (r: Session)
    ensures s.remaining.Int? && s.remaining.v > 1 ==> r == s.(remaining := Int(s.remaining.v - 1))
    ensures s.remaining.Int? && s.remaining.v <= 1 ==> r == Complete(s.(remaining := Int(0)), cfg)
    ensures s.remaining.NaN? ==> r == s
  {
    var left := if s.remaining.NaN? then NaN else Int(if s.remaining.v - 1 > 0 then s.remaining.v - 1 else 0);
    var t := s.(remaining := left);
    if left == Int(0) then Complete(t, cfg) else t
  }

  /** `resetTimer`: the current type and counters, at full length, stopped. */
  function ResetTimerOf(s: Session, cfg: PomodoroConfig): (r: Session)
    ensures Fresh(r, cfg)
    ensures r.kind == s.kind && r.currentRound == s.currentRound && r.completedPomodoros == s.completedPomodoros
  {
    var d := DurationOf(cfg, s.kind);
    s.(duration := d, remaining := d, isRunning := false, isPaused := false)
  }

  /** `resetPomodoro`: a first work session with no pomodoro completed. */
  function FirstSession(cfg: PomodoroConfig): (r: Session)
    ensures Fresh(r, cfg) && Counted(r)
    ensures r.kind == Work && r.currentRound == 1 && r.completedPomodoros == 0
  {
    var d := Seconds(cfg.workDuration);
    Session(Work, d, d, false, false, 1, 0)
  }

  // ----- Settings in the configuration table -----

  /** A number setting as `loadConfig` reads it: `parseInt` of a non-empty stored value. */
  function NumberSetting(m: map<string, string>, key: string, default: Num): (r: Num)
    ensures !(key in m && m[key] != "") ==> r == default
    ensures key in m && AllDigits(m[key]) && m[key] != "" ==> r == Int(DigitsValue(m[key]))
  {
    var v := ConfigRecords.Get(m, key);
    if v.Some? && AllDigits(v.value) then ParseIntOfDigits(v.value); ParseInt(v.value)
    else if v.Some? then ParseInt(v.value)
    else default
  }

  /** A boolean setting as `loadConfig` reads it: a non-empty stored value is true exactly when it
      is `true`, in that letter case. */
  function FlagSetting(m: map<string, string>, key: string, default: bool): (r: bool)
    ensures !(key in m && m[key] != "") ==> r == default
    ensures key in m && m[key] != "" ==> (r <==> m[key] == "true")
  {
    var v := ConfigRecords.Get(m, key);
    if v.Some? then v.value == "true" else default
  }

  /** The settings `loadConfig` builds from the table; a table with no Pomodoro settings gives
      the defaults. */
  function Decode(m: map<string, string>): (r: PomodoroConfig)
    ensures (WORK_KEY !in m && SHORT_KEY !in m && LONG_KEY !in m && INTERVAL_KEY !in m
             && AUTO_BREAKS_KEY !in m && AUTO_POMODOROS_KEY !in m && SOUND_KEY !in m
             && NOTIFICATIONS_KEY !in m && NAPALM_KEY !in m) ==> r == DEFAULT_CONFIG
    ensures WORK_KEY in m && m[WORK_KEY] != "" && AllDigits(m[WORK_KEY]) ==>
      r.workDuration == Int(DigitsValue(m[WORK_KEY]))
  {
    PomodoroConfig(
      NumberSetting(m, WORK_KEY, DEFAULT_CONFIG.workDuration),
      NumberSetting(m, SHORT_KEY, DEFAULT_CONFIG.shortBreakDuration),
      NumberSetting(m, LONG_KEY, DEFAULT_CONFIG.longBreakDuration),
      NumberSetting(m, INTERVAL_KEY, DEFAULT_CONFIG.longBreakInterval),
      FlagSetting(m, AUTO_BREAKS_KEY, DEFAULT_CONFIG.autoStartBreaks),
      FlagSetting(m, AUTO_POMODOROS_KEY, DEFAULT_CONFIG.autoStartPomodoros),
      FlagSetting(m, SOUND_KEY, DEFAULT_CONFIG.soundEnabled),
      FlagSetting(m, NOTIFICATIONS_KEY, DEFAULT_CONFIG.notificationsEnabled),
      FlagSetting(m, NAPALM_KEY, DEFAULT_CONFIG.napalm))
  }

  /** `n.toString()`. */
  function NumText(n: Num): string {
    if n.NaN? then "NaN" else IntToString(n.v)
  }

  /** `b.toString()`. */
  function FlagText(b: bool): string {
    if b then "true" else "false"
  }

  /** The table after `saveConfig(cfg)` has written its nine keys. */
  function Saved(m: map<string, string>, cfg: PomodoroConfig): map<string, string> {
    m[WORK_KEY := NumText(cfg.workDuration)]
     [SHORT_KEY := NumText(cfg.shortBreakDuration)]
     [LONG_KEY := NumText(cfg.longBreakDuration)]
     [INTERVAL_KEY := NumText(cfg.longBreakInterval)]
     [AUTO_BREAKS_KEY := FlagText(cfg.autoStartBreaks)]
     [AUTO_POMODOROS_KEY := FlagText(cfg.autoStartPomodoros)]
     [SOUND_KEY := FlagText(cfg.soundEnabled)]
     [NOTIFICATIONS_KEY := FlagText(cfg.notificationsEnabled)]
     [NAPALM_KEY := FlagText(cfg.napalm)]
  }

  /** `{ ...cfg, ...patch }`. */
  function Merged(cfg: PomodoroConfig, p: ConfigPatch): (r: PomodoroConfig)
    ensures p == ConfigPatch(None, None, None, None, None, None, None, None, None) ==> r == cfg
    ensures forall c :: p == FullPatch(c) ==> r == c
  {
    PomodoroConfig(
      p.workDuration.GetOr(cfg.workDuration),
      p.shortBreakDuration.GetOr(cfg.shortBreakDuration),
      p.longBreakDuration.GetOr(cfg.longBreakDuration),
      p.longBreakInterval.GetOr(cfg.longBreakInterval),
      p.autoStartBreaks.GetOr(cfg.autoStartBreaks),
      p.autoStartPomodoros.GetOr(cfg.autoStartPomodoros),
      p.soundEnabled.GetOr(cfg.soundEnabled),
      p.notificationsEnabled.GetOr(cfg.notificationsEnabled),
      p.napalm.GetOr(cfg.napalm))
  }

  /** The patch that sets every property, as `resetConfigToDefaults` passes the defaults. */
  function FullPatch(cfg: PomodoroConfig): ConfigPatch {
    ConfigPatch(Some(cfg.workDuration), Some(cfg.shortBreakDuration), Some(cfg.longBreakDuration),
                Some(cfg.longBreakInterval), Some(cfg.autoStartBreaks), Some(cfg.autoStartPomodoros),
                Some(cfg.soundEnabled), Some(cfg.notificationsEnabled), Some(cfg.napalm))
  }

  // ----- Display -----

  /** `n % 60` with JavaScript's truncating remainder. */
  function JsRem60(n: int): int {
    if n >= 0 then n % 60 else -((-n) % 60)
  }

  /** `formatTime(seconds)`: minutes and seconds, each padded to two digits, joined by `:`. A
      non-negative number of seconds reads back from this form: the part before the colon is
      the minutes, the two digits after it the seconds within the minute. */
  function FormatTime(seconds: Num): (r: string)
    ensures seconds.NaN? ==> r == "NaN:NaN"
    ensures seconds.Int? && seconds.v >= 0 ==>
      |r| >= 5 && r[|r| - 3] == ':' && AllDigits(r[..|r| - 3]) && AllDigits(r[|r| - 2..])
      && DigitsValue(r[..|r| - 3]) == seconds.v / 60 && DigitsValue(r[|r| - 2..]) == seconds.v % 60
    ensures seconds.Int? && 0 <= seconds.v < 6000 ==> |r| == 5
  {
    if seconds.NaN? then "NaN:NaN"
    else
      var mm := PadStart2(IntToString(seconds.v / 60));
      var ss := PadStart2(IntToString(JsRem60(seconds.v)));
      if seconds.v >= 0 then
        PaddedNat(seconds.v / 60);
        PaddedNat(seconds.v % 60);
        assert (mm + ":" + ss)[..|mm|] == mm;
        assert (mm + ":" + ss)[|mm| + 1..] == ss;
        mm + ":" + ss
      else mm + ":" + ss
  }

  /** `getSessionTypeLabel`. */
  function SessionTypeLabel(kind: SessionType): (r: string)
    ensures kind == Work <==> r == "Work Session"
    ensures kind != Work <==> |r| >= 5 && r[|r| - 5..] == "Break"
  {
    match kind
    case Work => "Work Session"
    case ShortBreak => "Short Break"
    case LongBreak => "Long Break"
  }

  /** `padStart(2, '0')` of a natural number: its digits, at least two of them. */
  lemma PaddedNat(n: nat)
    ensures |PadStart2(IntToString(n))| >= 2 && (n < 100 ==> |PadStart2(IntToString(n))| == 2)
    ensures AllDigits(PadStart2(IntToString(n))) && DigitsValue(PadStart2(IntToString(n))) == n
  {
    if n < 100 {
      PadNat(n);
    } else {
      assert NatToString(n) == NatToString(n / 10) + [DigitChar(n % 10)];
    }
  }

  // ----- Properties -----

  /** `n` ticks of a running session. */
  function Ticks(s: Session, cfg: PomodoroConfig, n: nat): Session
    decreases n
  {
    if n == 0 then s else Ticked(Ticks(s, cfg, n - 1), cfg)
  }

  /** A session with `r` seconds left counts down one second per tick and completes on exactly
      the `r`-th tick. */
  lemma {:induction false} TicksCountDown(s: Session, cfg: PomodoroConfig, n: nat)
    requires s.remaining.Int? && n < s.remaining.v
    ensures Ticks(s, cfg, n) == s.(remaining := Int(s.remaining.v - n))
    decreases n
  {
    if n > 0 {
      TicksCountDown(s, cfg, n - 1);
    }
  }

  lemma SessionLastsItsRemaining(s: Session, cfg: PomodoroConfig)
    requires s.remaining.Int? && s.remaining.v >= 1
    ensures forall n :: 0 <= n < s.remaining.v ==> Ticks(s, cfg, n).remaining == Int(s.remaining.v - n)
    ensures Ticks(s, cfg, s.remaining.v) == Complete(s.(remaining := Int(0)), cfg)
  {
    forall n | 0 <= n < s.remaining.v
      ensures Ticks(s, cfg, n).remaining == Int(s.remaining.v - n)
    {
      TicksCountDown(s, cfg, n);
    }
    TicksCountDown(s, cfg, s.remaining.v - 1);
  }

  /** `n` completed sessions in a row. */
  function Completions(s: Session, cfg: PomodoroConfig, n: nat): Session
    decreases n
  {
    if n == 0 then s else Complete(Completions(s, cfg, n - 1), cfg)
  }

  /** From a work session, every work session and the break after it add one pomodoro and one
      round, and lead back to work. */
  lemma {:induction false} WorkBreakCycle(s: Session, cfg: PomodoroConfig, k: nat)
    requires s.kind == Work
    ensures Completions(s, cfg, 2 * k).kind == Work
    ensures Completions(s, cfg, 2 * k).completedPomodoros == s.completedPomodoros + k
    ensures Completions(s, cfg, 2 * k).currentRound == s.currentRound + k
    decreases k
  {
    if k > 0 {
      WorkBreakCycle(s, cfg, k - 1);
      assert Completions(s, cfg, 2 * k) == Complete(Complete(Completions(s, cfg, 2 * (k - 1)), cfg), cfg);
    }
  }

  /** After a reset, the break following the `k`-th pomodoro is long exactly when `k` is a
      multiple of the long-break interval. */
  lemma LongBreakEveryInterval(cfg: PomodoroConfig, k: nat)
    requires k >= 1
    ensures Completions(FirstSession(cfg), cfg, 2 * k - 1).kind == LongBreak <==> IsLongBreak(k, cfg.longBreakInterval)
    ensures Completions(FirstSession(cfg), cfg, 2 * k - 1).kind != Work
  {
    WorkBreakCycle(FirstSession(cfg), cfg, k - 1);
    assert 2 * k - 1 == 2 * (k - 1) + 1;
  }

  /** `parseInt` reads back every number `toString` writes, NaN included. */
  lemma NumTextReadsBack(n: Num)
    ensures NumText(n) != "" && ParseInt(NumText(n)) == n
  {
    if n.Int? {
      ParseIntOfIntToString(n.v);
      assert |NatToString(if n.v < 0 then -n.v else n.v)| >= 1;
    } else {
      assert TrimStart("NaN") == "NaN";
      assert DigitPrefix("NaN") == [];
    }
  }

  /** Each of the nine keys reads back what `saveConfig` wrote under it. */
  lemma SavedValues(m: map<string, string>, cfg: PomodoroConfig)
    ensures Saved(m, cfg)[WORK_KEY] == NumText(cfg.workDuration)
    ensures Saved(m, cfg)[SHORT_KEY] == NumText(cfg.shortBreakDuration)
    ensures Saved(m, cfg)[LONG_KEY] == NumText(cfg.longBreakDuration)
    ensures Saved(m, cfg)[INTERVAL_KEY] == NumText(cfg.longBreakInterval)
    ensures Saved(m, cfg)[AUTO_BREAKS_KEY] == FlagText(cfg.autoStartBreaks)
    ensures Saved(m, cfg)[AUTO_POMODOROS_KEY] == FlagText(cfg.autoStartPomodoros)
    ensures Saved(m, cfg)[SOUND_KEY] == FlagText(cfg.soundEnabled)
    ensures Saved(m, cfg)[NOTIFICATIONS_KEY] == FlagText(cfg.notificationsEnabled)
    ensures Saved(m, cfg)[NAPALM_KEY] == FlagText(cfg.napalm)
  {
    // The keys of equal length differ at one letter.
    assert WORK_KEY[9] != SOUND_KEY[9] && SHORT_KEY[9] != AUTO_POMODOROS_KEY[9] && LONG_KEY[18] != INTERVAL_KEY[18];
  }

  /** `loadConfig` after `saveConfig(cfg)` gives back `cfg`, whatever else the table holds. */
  lemma LoadAfterSave(m: map<string, string>, cfg: PomodoroConfig)
    ensures Decode(Saved(m, cfg)) == cfg
  {
    SavedValues(m, cfg);
    NumTextReadsBack(cfg.workDuration);
    NumTextReadsBack(cfg.shortBreakDuration);
    NumTextReadsBack(cfg.longBreakDuration);
    NumTextReadsBack(cfg.longBreakInterval);
  }

  /** Unlike the configuration service's own boolean getter, the Pomodoro settings are read in
      exact letter case. */
  lemma FlagLetterCase(m: map<string, string>, key: string)
    requires key in m && m[key] == "TRUE"
    ensures !FlagSetting(m, key, true)
    ensures ConfigRecords.AsBoolean(m, key, false)
  {
    assert Lower("TRUE") == "true";
  }

  /** A patch setting every property replaces the settings; applying a patch twice changes
      nothing more. */
  lemma MergeSpec(cfg: PomodoroConfig, other: PomodoroConfig, p: ConfigPatch)
    ensures Merged(other, FullPatch(cfg)) == cfg
    ensures Merged(Merged(other, p), p) == Merged(other, p)
  {
  }

  class PomodoroService {
    var session: Session
    var config: PomodoroConfig
    /** The configuration table the settings are kept in. */
    const store: ConfigRecords.ConfigService

    ghost predicate Valid()
      reads this
    {
      Counted(session)
    }

    /** The service starts from the defaults and then loads the stored settings; `loadFails`
        stands for a failing read, after which the defaults stay. */
    constructor(store: ConfigRecords.ConfigService, loadFails: bool)
      ensures Valid()
      ensures this.store == store
      ensures config == if loadFails then DEFAULT_CONFIG else Decode(store.entries)
      ensures session == FirstSession(config)
    {
      this.store := store;
      config := DEFAULT_CONFIG;
      session := FirstSession(DEFAULT_CONFIG);
      new;
      LoadConfig(loadFails);
    }

    method LoadConfig(fails: bool)
      requires Valid()
      modifies this
      ensures Valid()
      ensures config == if fails then old(config) else Decode(store.entries)
      ensures session == if fails || old(session).isRunning then old(session) else ResetTimerOf(old(session), config)
    {
      if !fails {
        config := Decode(store.entries);
        if !session.isRunning {
          ResetTimer();
        }
      }
    }

    method GetSession() returns (r: Session)
      ensures r == session
    {
      r := session;
    }

    method GetConfig() returns (r: PomodoroConfig)
      ensures r == config
    {
      r := config;
    }

    /** `saveConfig`: each of the nine settings written as its string. */
    method SaveConfig(cfg: PomodoroConfig)
      modifies store
      ensures store.entries == Saved(old(store.entries), cfg)
    {
      var _ := store.SetConfig(WORK_KEY, NumText(cfg.workDuration));
      var _ := store.SetConfig(SHORT_KEY, NumText(cfg.shortBreakDuration));
      var _ := store.SetConfig(LONG_KEY, NumText(cfg.longBreakDuration));
      var _ := store.SetConfig(INTERVAL_KEY, NumText(cfg.longBreakInterval));
      var _ := store.SetConfig(AUTO_BREAKS_KEY, FlagText(cfg.autoStartBreaks));
      var _ := store.SetConfig(AUTO_POMODOROS_KEY, FlagText(cfg.autoStartPomodoros));
      var _ := store.SetConfig(SOUND_KEY, FlagText(cfg.soundEnabled));
      var _ := store.SetConfig(NOTIFICATIONS_KEY, FlagText(cfg.notificationsEnabled));
      var _ := store.SetConfig(NAPALM_KEY, FlagText(cfg.napalm));
    }

    /** `updateConfig`: merge, save, and restart the current session at its new length unless
        it is running. */
    method UpdateConfig(patch: ConfigPatch)
      requires Valid()
      modifies this, store
      ensures Valid()
      ensures config == Merged(old(config), patch)
      ensures store.entries == Saved(old(store.entries), config)
      ensures session == if old(session).isRunning then old(session) else ResetTimerOf(old(session), config)
    {
      config := Merged(config, patch);
      SaveConfig(config);
      if !session.isRunning {
        ResetTimer();
      }
    }

    method ResetConfigToDefaults()
      requires Valid()
      modifies this, store
      ensures Valid()
      ensures config == DEFAULT_CONFIG
      ensures store.entries == Saved(old(store.entries), DEFAULT_CONFIG)
      ensures session == if old(session).isRunning then old(session) else ResetTimerOf(old(session), config)
    {
      MergeSpec(DEFAULT_CONFIG, config, FullPatch(DEFAULT_CONFIG));
      UpdateConfig(FullPatch(DEFAULT_CONFIG));
    }

    /** `startTimer`: nothing when already running; otherwise running and not paused. */
    method StartTimer()
      requires Valid()
      modifies this
      ensures Valid() && config == old(config)
      ensures session == if old(session).isRunning then old(session) else old(session).(isRunning := true, isPaused := false)
    {
      if session.isRunning {
        return;
      }
      session := session.(isRunning := true, isPaused := false);
    }

    /** `pauseTimer`: nothing when not running; otherwise paused. */
    method PauseTimer()
      requires Valid()
      modifies this
      ensures Valid() && config == old(config)
      ensures session == if !old(session).isRunning then old(session) else old(session).(isRunning := false, isPaused := true)
    {
      if !session.isRunning {
        return;
      }
      session := session.(isRunning := false, isPaused := true);
    }

    method ResetTimer()
      requires Valid()
      modifies this
      ensures Valid() && config == old(config)
      ensures session == ResetTimerOf(old(session), config)
    {
      session := ResetTimerOf(session, config);
    }

    method ResetPomodoro()
      modifies this
      ensures Valid() && config == old(config)
      ensures session == FirstSession(config)
    {
      session := FirstSession(config);
    }

    /** `startNextSession(kind, updates)`: the new session, with the counters of `updates` when
        given; answers whether the timer is to start by itself. */
    method StartNextSession(kind: SessionType, updates: Option<(int, int)>) returns (autoStart: bool)
      modifies this
      ensures config == old(config)
      ensures session == if updates.None? then StartNext(old(session), config, kind)
                         else StartNext(old(session), config, kind).(completedPomodoros := updates.value.0, currentRound := updates.value.1)
      ensures autoStart == AutoStart(config, kind)
    {
      var d := DurationOf(config, kind);
      session := session.(kind := kind, duration := d, remaining := d, isRunning := false, isPaused := false);
      if updates.Some? {
        session := session.(completedPomodoros := updates.value.0, currentRound := updates.value.1);
      }
      autoStart := (kind == Work && config.autoStartPomodoros) || (kind != Work && config.autoStartBreaks);
    }

    /** `completeSession`. */
    method CompleteSession() returns (autoStart: bool)
      requires Valid()
      modifies this
      ensures Valid() && config == old(config)
      ensures session == Complete(old(session), config)
      ensures autoStart == AutoStart(config, session.kind)
    {
      if session.kind == Work {
        var n := session.completedPomodoros + 1;
        var next := if IsLongBreak(n, config.longBreakInterval) then LongBreak else ShortBreak;
        autoStart := StartNextSession(next, Some((n, session.currentRound + 1)));
      } else {
        autoStart := StartNextSession(Work, None);
      }
    }

    /** `tick`, as the interval calls it while the session runs. */
    method Tick() returns (autoStart: bool)
      requires Valid() && session.isRunning
      modifies this
      ensures Valid() && config == old(config)
      ensures session == Ticked(old(session), config)
      ensures autoStart <==> old(session).remaining.Int? && old(session).remaining.v <= 1 && AutoStart(config, session.kind)
    {
      var left := if session.remaining.NaN? then NaN
                  else Int(if session.remaining.v - 1 > 0 then session.remaining.v - 1 else 0);
      session := session.(remaining := left);
      autoStart := false;
      if left == Int(0) {
        autoStart := CompleteSession();
      }
    }

    /** `skipSession`: the current session completes at once. */
    method SkipSession() returns (autoStart: bool)
      requires Valid()
      modifies this
      ensures Valid() && config == old(config)
      ensures session == Complete(old(session), config)
      ensures autoStart == AutoStart(config, session.kind)
    {
      autoStart := CompleteSession();
    }
  }
}
