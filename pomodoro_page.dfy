/**
 * The focus timer of star-note-frontend/src/pages/Pomodoro/PomodoroPage.jsx: a mode/round
 * state machine (focus, then a short break, with a long break after every
 * `roundsBeforeLongBreak`-th focus session), the countdown, the timer settings and a task list.
 * The page's React state is the field set of `PomodoroTimer`; every handler is a method.
 */
module PomodoroPage {
  import opened Wrappers
  import opened JsStrings
  import opened Seqs

  datatype Mode = Focus | ShortBreak | LongBreak

  /** The four minute settings, each a number the settings form parsed. */
  datatype Settings = Settings(focusTime: int, shortBreakTime: int, longBreakTime: int, roundsBeforeLongBreak: int)

  /** The `name` of the settings input that changed. */
  datatype SettingName = FocusTime | ShortBreakTime | LongBreakTime | RoundsBeforeLongBreak

  datatype Task = Task(id: int, text: string, completed: bool)

  /** Where the timer is in its cycle: the mode and the number of finished focus sessions. */
  datatype Cycle = Cycle(mode: Mode, rounds: int)

  const DefaultSettings := Settings(25, 5, 15, 4)

  const DefaultTasks := [
    Task(1, "Complete project proposal", false),
    Task(2, "Research new technologies", false),
    Task(3, "Update portfolio website", false)
  ]

  /** Every setting is non-zero: `parseInt(value, 10) || 1` never stores 0 or NaN. */
  predicate SettingsValid(s: Settings) {
    s.focusTime != 0 && s.shortBreakTime != 0 && s.longBreakTime != 0 && s.roundsBeforeLongBreak != 0
  }

  // ================================================================ the mode/round state machine

  /**
   * What finishing or skipping the current session does: a focus session counts one more
   * round and is followed by a long break when the new count is a multiple of
   * `roundsBeforeLongBreak` (JavaScript `%`), else by a short break; any break is followed by
   * focus with the count unchanged.
   */
  function Advance(c: Cycle, roundsBeforeLongBreak: int): Cycle
    requires roundsBeforeLongBreak != 0
  {
    if c.mode == Focus then
      var newRounds := c.rounds + 1;
      if JsRem(newRounds, roundsBeforeLongBreak) == 0 then Cycle(LongBreak, newRounds)
      else Cycle(ShortBreak, newRounds)
    else Cycle(Focus, c.rounds)
  }

  /** One step of the machine, as the source promises it. */
  lemma AdvanceSteps(c: Cycle, r: int)
    requires r != 0
    ensures c.mode == Focus ==>
              Advance(c, r).rounds == c.rounds + 1 && Advance(c, r).mode != Focus
              && (Advance(c, r).mode == LongBreak <==> (c.rounds + 1) % Abs(r) == 0)
    ensures c.mode != Focus ==> Advance(c, r) == Cycle(Focus, c.rounds)
  {
  }

  /** `k` sessions finished or skipped one after the other. */
  function AdvanceN(c: Cycle, k: nat, r: int): Cycle
    requires r != 0
  {
    if k == 0 then c else Advance(AdvanceN(c, k - 1, r), r)
  }

  /**
   * The cycle: from focus at a multiple of `r` finished rounds, the `j`-th focus session is
   * followed by a short break for `j < r` and by the long break for `j == r`, and every break
   * leads back to focus. So exactly one long break comes every `r` focus sessions.
   */
  lemma {:induction false} FocusCycle(q: nat, r: int, j: nat)
    requires r >= 1 && 1 <= j <= r
    ensures AdvanceN(Cycle(Focus, r * q), 2 * j - 1, r)
         == Cycle(if j == r then LongBreak else ShortBreak, r * q + j)
    ensures AdvanceN(Cycle(Focus, r * q), 2 * j, r) == Cycle(Focus, r * q + j)
  {
    var start := Cycle(Focus, r * q);
    if j > 1 {
      FocusCycle(q, r, j - 1);
      assert AdvanceN(start, 2 * (j - 1), r) == Cycle(Focus, r * q + j - 1);
    }
    assert AdvanceN(start, 2 * j - 2, r) == Cycle(Focus, r * q + j - 1);
    RemAfterMultiple(q, r, j);
  }

  /** `(r * q + i) % r` is zero for `i == r` and not for `1 <= i < r`. */
  lemma {:induction false} RemAfterMultiple(q: nat, r: int, i: int)
    requires r >= 1 && 1 <= i <= r
    ensures (r * q + i) % r == 0 <==> i == r
  {
    if i == r {
      MultipleRemZero(r * q + i, r, q + 1);
    } else {
      RemOfMultiplePlus(q, r, i);
    }
  }

  /**
   * The round counter `rounds % roundsBeforeLongBreak || roundsBeforeLongBreak`: the number of
   * focus sessions finished in the current cycle, shown as the cycle length when it is 0.
   */
  function RoundDisplay(rounds: int, roundsBeforeLongBreak: int): (d: int)
    requires roundsBeforeLongBreak != 0
    ensures rounds >= 0 && roundsBeforeLongBreak > 0 ==> 1 <= d <= roundsBeforeLongBreak
  {
    var x := JsRem(rounds, roundsBeforeLongBreak);
    if x != 0 then x else roundsBeforeLongBreak
  }

  /** After the `j`-th focus session of a cycle the counter reads `j`. */
  lemma {:induction false} RoundDisplayInCycle(q: nat, r: int, j: int)
    requires r >= 1 && 1 <= j <= r
    ensures RoundDisplay(r * q + j, r) == j
  {
    RemAfterMultiple(q, r, j);
    if j < r {
      RemOfMultiplePlus(q, r, j);
    }
  }

  /** The minutes of a mode's session. */
  function ModeMinutes(s: Settings, m: Mode): int {
    match m
    case Focus => s.focusTime
    case ShortBreak => s.shortBreakTime
    case LongBreak => s.longBreakTime
  }

  // ================================================================ settings

  /** `parseInt(value, 10) || 1`: an unparsable value or 0 is stored as 1. */
  function SettingValue(value: string): (n: int)
    ensures n != 0
  {
    match ParseInt(value)
    case None => 1
    case Some(v) => if v == 0 then 1 else v
  }

  /** A number typed into the form is stored as that number; "0" and text that is no number become 1. */
  lemma SettingValueReadsBack(n: int)
    ensures SettingValue(IntToString(n)) == if n == 0 then 1 else n
    ensures SettingValue("") == 1
  {
    ParseIntOfIntToString(n);
  }

  function WithSetting(s: Settings, name: SettingName, v: int): Settings {
    match name
    case FocusTime => s.(focusTime := v)
    case ShortBreakTime => s.(shortBreakTime := v)
    case LongBreakTime => s.(longBreakTime := v)
    case RoundsBeforeLongBreak => s.(roundsBeforeLongBreak := v)
  }

  // ================================================================ MM:SS

  /**
   * `formatTime(seconds)`: `Math.floor(seconds / 60)` and `seconds % 60`, each printed and
   * zero-padded to two characters.
   */
  function FormatTime(seconds: int): string {
    var mins := seconds / 60;
    var secs := JsRem(seconds, 60);
    PadZeros(IntToString(mins), 2) + ":" + PadZeros(IntToString(secs), 2)
  }

  /**
   * For a non-negative time the text reads back: the part before the last three characters is
   * the whole minutes, then a colon, then two digits holding the remaining seconds.
   */
  lemma FormatTimeReadsBack(seconds: int)
    requires seconds >= 0
    ensures var t := FormatTime(seconds);
            |t| >= 5 && t[|t| - 3] == ':'
            && ParseInt(t[..|t| - 3]) == Some(seconds / 60)
            && ParseInt(t[|t| - 2..]) == Some(seconds % 60)
  {
    var mm := PadZeros(NatToString(seconds / 60), 2);
    var ss := PadZeros(NatToString(seconds % 60), 2);
    FormatTimeNonNegative(seconds);
    NatToStringBelowHundred(seconds % 60);
    ColonParts(mm, ss);
    ParseIntOfPadded(seconds / 60, 2);
    ParseIntOfPadded(seconds % 60, 2);
  }

  lemma FormatTimeNonNegative(seconds: int)
    requires seconds >= 0
    ensures FormatTime(seconds) == PadZeros(NatToString(seconds / 60), 2) + ":" + PadZeros(NatToString(seconds % 60), 2)
  {
    assert JsRem(seconds, 60) == seconds % 60;
  }

  lemma ColonParts(mm: string, ss: string)
    requires |ss| == 2
    ensures var t := mm + ":" + ss;
            t[|t| - 3] == ':' && t[..|t| - 3] == mm && t[|t| - 2..] == ss
  {
    var t := mm + ":" + ss;
    assert t[..|t| - 3] == mm;
    assert t[|t| - 2..] == ss;
  }

  /** Under 100 minutes the text is exactly five characters, `MM:SS`. */
  lemma FormatTimeFiveChars(seconds: int)
    requires 0 <= seconds < 6000
    ensures |FormatTime(seconds)| == 5
  {
    NatToStringBelowHundred(seconds / 60);
    NatToStringBelowHundred(seconds % 60);
  }

  // ================================================================ tasks

  /** `tasks.map(...)` of `toggleTaskCompletion(id)`. */
  function ToggledTasks(tasks: seq<Task>, id: int): (r: seq<Task>)
    ensures |r| == |tasks|
  {
    seq(|tasks|, i requires 0 <= i < |tasks| =>
      if tasks[i].id == id then tasks[i].(completed := !tasks[i].completed) else tasks[i])
  }

  /** Only the tasks with the id change, and only their completion flag, which flips. */
  lemma ToggleOnlyMatching(tasks: seq<Task>, id: int)
    ensures var r := ToggledTasks(tasks, id);
            forall i :: 0 <= i < |tasks| ==>
              r[i].id == tasks[i].id && r[i].text == tasks[i].text
              && (r[i].completed != tasks[i].completed <==> tasks[i].id == id)
  {
  }

  /** Toggling twice restores the list. */
  lemma ToggleTwice(tasks: seq<Task>, id: int)
    ensures ToggledTasks(ToggledTasks(tasks, id), id) == tasks
  {
    var r := ToggledTasks(ToggledTasks(tasks, id), id);
    assert forall i :: 0 <= i < |tasks| ==> r[i] == tasks[i];
  }

  /** `tasks.filter(task => task.id !== id)`. */
  function WithoutTask(tasks: seq<Task>, id: int): seq<Task> {
    Filter(tasks, (t: Task) => t.id != id)
  }

  /** Deleting removes every task with the id and keeps every other task, in order. */
  lemma DeleteRemovesExactly(tasks: seq<Task>, id: int)
    ensures var r := WithoutTask(tasks, id);
            (forall i :: 0 <= i < |r| ==> r[i].id != id && r[i] in tasks)
            && (forall i :: 0 <= i < |tasks| && tasks[i].id != id ==> tasks[i] in r)
            && IsSubseq(r, tasks)
  {
  }

  // ================================================================ the page state

  class PomodoroTimer {
    var mode: Mode
    var timeLeft: int
    var isActive: bool
    var rounds: int
    var showSettings: bool
    var settings: Settings
    var tasks: seq<Task>
    var newTask: string

    ghost predicate Valid()
      reads this
    {
      rounds >= 0 && SettingsValid(settings)
    }

    /** The initial state: focus, 25:00, stopped, no rounds, default settings and tasks. */
    constructor()
      ensures Valid()
      ensures mode == Focus && timeLeft == 25 * 60 && !isActive && rounds == 0
      ensures !showSettings && settings == DefaultSettings
      ensures tasks == DefaultTasks && newTask == ""
    {
      mode := Focus;
      timeLeft := 25 * 60;
      isActive := false;
      rounds := 0;
      showSettings := false;
      settings := DefaultSettings;
      tasks := DefaultTasks;
      newTask := "";
    }

    /** `handleTimerComplete`: advance the machine and stop the timer. */
    method HandleTimerComplete()
      requires Valid()
      modifies this
      ensures Valid()
      ensures Cycle(mode, rounds) == Advance(Cycle(old(mode), old(rounds)), settings.roundsBeforeLongBreak)
      ensures !isActive
      ensures timeLeft == old(timeLeft) && showSettings == old(showSettings) && settings == old(settings)
      ensures tasks == old(tasks) && newTask == old(newTask)
    {
      if mode == Focus {
        var newRounds := rounds + 1;
        rounds := newRounds;
        if JsRem(newRounds, settings.roundsBeforeLongBreak) == 0 {
          mode := LongBreak;
        } else {
          mode := ShortBreak;
        }
      } else {
        mode := Focus;
      }
      isActive := false;
    }

    /** `skipToNext`: the same transition, leaving the timer running or stopped as it was. */
    method SkipToNext()
      requires Valid()
      modifies this
      ensures Valid()
      ensures Cycle(mode, rounds) == Advance(Cycle(old(mode), old(rounds)), settings.roundsBeforeLongBreak)
      ensures isActive == old(isActive) && timeLeft == old(timeLeft)
      ensures showSettings == old(showSettings) && settings == old(settings)
      ensures tasks == old(tasks) && newTask == old(newTask)
    {
      if mode == Focus {
        var newRounds := rounds + 1;
        rounds := newRounds;
        if JsRem(newRounds, settings.roundsBeforeLongBreak) == 0 {
          mode := LongBreak;
        } else {
          mode := ShortBreak;
        }
      } else {
        mode := Focus;
      }
    }

    /** `toggleTimer`: start or pause. */
    method ToggleTimer()
      modifies this
      ensures isActive == !old(isActive)
      ensures mode == old(mode) && timeLeft == old(timeLeft) && rounds == old(rounds)
      ensures showSettings == old(showSettings) && settings == old(settings)
      ensures tasks == old(tasks) && newTask == old(newTask)
    {
      isActive := !isActive;
    }

    /** `resetTimer`: stop, and set the time to the current mode's minutes in seconds. */
    method ResetTimer()
      modifies this
      ensures !isActive && timeLeft == ModeMinutes(settings, mode) * 60
      ensures mode == old(mode) && rounds == old(rounds)
      ensures showSettings == old(showSettings) && settings == old(settings)
      ensures tasks == old(tasks) && newTask == old(newTask)
    {
      isActive := false;
      match mode
      case Focus => timeLeft := settings.focusTime * 60;
      case ShortBreak => timeLeft := settings.shortBreakTime * 60;
      case LongBreak => timeLeft := settings.longBreakTime * 60;
    }

    /**
     * One step of the countdown effect: a running timer with time left loses one second; a
     * running timer at zero completes its session, after which the mode effect resets the
     * timer to the new mode's length; anything else is left alone.
     */
    method Tick()
      requires Valid()
      modifies this
      ensures Valid()
      ensures old(isActive) && old(timeLeft) > 0 ==>
                timeLeft == old(timeLeft) - 1 && isActive && mode == old(mode) && rounds == old(rounds)
      ensures old(isActive) && old(timeLeft) == 0 ==>
                Cycle(mode, rounds) == Advance(Cycle(old(mode), old(rounds)), settings.roundsBeforeLongBreak)
                && !isActive && timeLeft == ModeMinutes(settings, mode) * 60
      ensures !old(isActive) || old(timeLeft) < 0 ==>
                timeLeft == old(timeLeft) && isActive == old(isActive) && mode == old(mode) && rounds == old(rounds)
      ensures showSettings == old(showSettings) && settings == old(settings)
      ensures tasks == old(tasks) && newTask == old(newTask)
    {
      if isActive && timeLeft > 0 {
        timeLeft := timeLeft - 1;
      } else if isActive && timeLeft == 0 {
        CompleteSession();
      }
    }

    /**
     * A session ending on its own: completion changes the mode, and the effect that watches
     * the mode then resets the timer to the new mode's length, stopped.
     */
    method CompleteSession()
      requires Valid()
      modifies this
      ensures Valid()
      ensures Cycle(mode, rounds) == Advance(Cycle(old(mode), old(rounds)), settings.roundsBeforeLongBreak)
      ensures !isActive && timeLeft == ModeMinutes(settings, mode) * 60
      ensures showSettings == old(showSettings) && settings == old(settings)
      ensures tasks == old(tasks) && newTask == old(newTask)
    {
      HandleTimerComplete();
      ResetTimer();
    }

    /** `handleSettingChange`: store the parsed value under the input's name. */
    method HandleSettingChange(name: SettingName, value: string)
      requires Valid()
      modifies this
      ensures Valid()
      ensures settings == WithSetting(old(settings), name, SettingValue(value))
      ensures mode == old(mode) && timeLeft == old(timeLeft) && isActive == old(isActive) && rounds == old(rounds)
      ensures showSettings == old(showSettings) && tasks == old(tasks) && newTask == old(newTask)
    {
      settings := WithSetting(settings, name, SettingValue(value));
    }

    /**
     * A skip as the page runs it: `skipToNext` changes the mode, and the effect that watches
     * the mode then resets the timer to the new mode's length, stopped.
     */
    method Skip()
      requires Valid()
      modifies this
      ensures Valid()
      ensures Cycle(mode, rounds) == Advance(Cycle(old(mode), old(rounds)), settings.roundsBeforeLongBreak)
      ensures !isActive && timeLeft == ModeMinutes(settings, mode) * 60
      ensures showSettings == old(showSettings) && settings == old(settings)
      ensures tasks == old(tasks) && newTask == old(newTask)
    {
      SkipToNext();
      ResetTimer();
    }

    /**
     * A settings keystroke as the page runs it: `handleSettingChange` makes a new settings
     * object, and the effect that watches the settings then stops the timer at the current
     * mode's (possibly new) length.
     */
    method ChangeSetting(name: SettingName, value: string)
      requires Valid()
      modifies this
      ensures Valid()
      ensures settings == WithSetting(old(settings), name, SettingValue(value))
      ensures !isActive && timeLeft == ModeMinutes(settings, mode) * 60
      ensures mode == old(mode) && rounds == old(rounds)
      ensures showSettings == old(showSettings) && tasks == old(tasks) && newTask == old(newTask)
    {
      HandleSettingChange(name, value);
      ResetTimer();
    }

    /** `saveSettings`: close the dialog and reset the timer. */
    method SaveSettings()
      modifies this
      ensures !showSettings && !isActive && timeLeft == ModeMinutes(settings, mode) * 60
      ensures mode == old(mode) && rounds == old(rounds) && settings == old(settings)
      ensures tasks == old(tasks) && newTask == old(newTask)
    {
      showSettings := false;
      ResetTimer();
    }

    /**
     * `handleAddTask`: a blank input adds nothing; otherwise the trimmed text is appended as
     * an open task under `id` (the source's `Date.now()`) and the input is cleared.
     */
    method HandleAddTask(id: int)
      modifies this
      ensures IsBlank(old(newTask)) ==> tasks == old(tasks) && newTask == old(newTask)
      ensures !IsBlank(old(newTask)) ==>
                tasks == old(tasks) + [Task(id, Trim(old(newTask)), false)] && newTask == ""
      ensures mode == old(mode) && timeLeft == old(timeLeft) && isActive == old(isActive) && rounds == old(rounds)
      ensures showSettings == old(showSettings) && settings == old(settings)
    {
      if Trim(newTask) == "" {
        return;
      }
      var task := Task(id, Trim(newTask), false);
      tasks := tasks + [task];
      newTask := "";
    }

    /** `toggleTaskCompletion(id)` */
    method ToggleTaskCompletion(id: int)
      modifies this
      ensures tasks == ToggledTasks(old(tasks), id)
      ensures mode == old(mode) && timeLeft == old(timeLeft) && isActive == old(isActive) && rounds == old(rounds)
      ensures showSettings == old(showSettings) && settings == old(settings) && newTask == old(newTask)
    {
      tasks := ToggledTasks(tasks, id);
    }

    /** `deleteTask(id)` */
    method DeleteTask(id: int)
      modifies this
      ensures tasks == WithoutTask(old(tasks), id)
      ensures mode == old(mode) && timeLeft == old(timeLeft) && isActive == old(isActive) && rounds == old(rounds)
      ensures showSettings == old(showSettings) && settings == old(settings) && newTask == old(newTask)
    {
      tasks := WithoutTask(tasks, id);
    }
  }
}
