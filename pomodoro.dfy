/**
 * The pomodoro timer state and its transitions: the per-second tick (with
 * the automatic change of session when the time runs out), start, pause,
 * resume, stop, completing the current task, the three session setters,
 * and the `MM:SS` display of the remaining time.
 */
module Pomodoro {
  import opened Common

  datatype Session = Work | ShortBreak | LongBreak

  /** Seconds per session: 25, 5 and 15 minutes. */
  function Duration(s: Session): (r: int)
    ensures r > 0
  {
    match s
    case Work => 25 * 60
    case ShortBreak => 5 * 60
    case LongBreak => 15 * 60
  }

  /** A task is represented by its title. */
  datatype PomodoroState = PomodoroState(
    isRunning: bool, isPaused: bool, timeLeft: int, totalTime: int,
    currentTask: Option<string>, session: Session, completedSessions: int)

  const Initial := PomodoroState(false, false, 25 * 60, 25 * 60, None, Work, 0)

  /**
   * The invariant every operation keeps: the total is one of the three
   * durations, some time is left and no more than the total, and the
   * completed count is not negative.
   */
  predicate Valid(s: PomodoroState) {
    && (s.totalTime == Duration(Work) || s.totalTime == Duration(ShortBreak) || s.totalTime == Duration(LongBreak))
    && 1 <= s.timeLeft <= s.totalTime
    && s.completedSessions >= 0
  }

  /** The session that follows `s` once `completed` sessions are done. */
  function NextSession(s: Session, completed: int): (r: Session)
    ensures s != Work ==> r == Work
    ensures s == Work ==> (r == LongBreak <==> completed % 4 == 0)
    ensures s == Work ==> r != Work
  {
    if s == Work then (if completed % 4 == 0 then LongBreak else ShortBreak) else Work
  }

  /** One second of the running timer. */
  function Tick(s: PomodoroState): (r: PomodoroState)
    ensures s.timeLeft > 1 ==> r == s.(timeLeft := s.timeLeft - 1)
    ensures s.timeLeft <= 1 ==>
      && r.completedSessions == s.completedSessions + 1
      && !r.isRunning && !r.isPaused
      && r.session == NextSession(s.session, s.completedSessions + 1)
      && r.timeLeft == r.totalTime == Duration(r.session)
      && r.currentTask == (if r.session == Work then s.currentTask else None)
  {
    if s.timeLeft <= 1 then
      var completed := s.completedSessions + 1;
      var next := NextSession(s.session, completed);
      s.(isRunning := false, isPaused := false, timeLeft := Duration(next), totalTime := Duration(next),
         session := next, completedSessions := completed,
         currentTask := if next == Work then s.currentTask else None)
    else
      s.(timeLeft := s.timeLeft - 1)
  }

  /** `startPomodoro(task)`: running, not paused, with `task` as the current task; the time is not reset. */
  function Start(s: PomodoroState, task: Option<string>): (r: PomodoroState)
    ensures r.isRunning && !r.isPaused && r.currentTask == task
    ensures r.(isRunning := s.isRunning, isPaused := s.isPaused, currentTask := s.currentTask) == s
  {
    s.(isRunning := true, isPaused := false, currentTask := task)
  }

  /** `pausePomodoro`. */
  function Pause(s: PomodoroState): (r: PomodoroState)
    ensures r.isPaused && r.(isPaused := s.isPaused) == s
  {
    s.(isPaused := true)
  }

  /** `resumePomodoro`. */
  function Resume(s: PomodoroState): (r: PomodoroState)
    ensures !r.isPaused && r.(isPaused := s.isPaused) == s
  {
    s.(isPaused := false)
  }

  /** `stopPomodoro`: back to a full work-length time with no task; the session and the count stay. */
  function Stop(s: PomodoroState): (r: PomodoroState)
    ensures !r.isRunning && !r.isPaused && r.currentTask.None?
    ensures r.timeLeft == r.totalTime == Duration(Work)
    ensures r.session == s.session && r.completedSessions == s.completedSessions
  {
    s.(isRunning := false, isPaused := false, timeLeft := 25 * 60, totalTime := 25 * 60, currentTask := None)
  }

  /** `completeCurrentTask`. */
  function CompleteCurrentTask(s: PomodoroState): (r: PomodoroState)
    ensures r.currentTask.None? && r.(currentTask := s.currentTask) == s
  {
    s.(currentTask := None)
  }

  /** `setWorkSession`, `setShortBreak` and `setLongBreak`: a stopped, full session of the given kind. */
  function SetSession(s: PomodoroState, session: Session): (r: PomodoroState)
    ensures r.session == session && r.timeLeft == r.totalTime == Duration(session)
    ensures !r.isRunning && !r.isPaused
    ensures r.currentTask == s.currentTask && r.completedSessions == s.completedSessions
  {
    s.(session := session, timeLeft := Duration(session), totalTime := Duration(session),
       isRunning := false, isPaused := false)
  }

  /** Every operation keeps the invariant. */
  lemma OperationsKeepValid(s: PomodoroState, task: Option<string>, session: Session)
    requires Valid(s)
    ensures Valid(Tick(s)) && Valid(Start(s, task)) && Valid(Pause(s)) && Valid(Resume(s))
    ensures Valid(Stop(s)) && Valid(CompleteCurrentTask(s)) && Valid(SetSession(s, session))
  {
    var t := Tick(s);
    assert t.session == Work || t.session == ShortBreak || t.session == LongBreak;
  }

  lemma InitialIsValid()
    ensures Valid(Initial) && Initial.session == Work && Initial.timeLeft == Duration(Work)
  {
  }

  /** `n` seconds of the running timer: a valid timer stays valid, and sessions are never uncounted. */
  function Ticks(s: PomodoroState, n: nat): (r: PomodoroState)
    decreases n
    ensures Valid(s) ==> Valid(r)
    ensures r.completedSessions >= s.completedSessions
  {
    if n == 0 then s
    else
      var t := Tick(s);
      assert Valid(s) ==> Valid(t) by {
        if Valid(s) {
          OperationsKeepValid(s, None, Work);
        }
      }
      Ticks(t, n - 1)
  }

  /** While more than `n` seconds are left, `n` ticks only count the time down. */
  lemma {:induction false} CountDown(s: PomodoroState, n: nat)
    requires n < s.timeLeft
    decreases n
    ensures Ticks(s, n) == s.(timeLeft := s.timeLeft - n)
  {
    if n > 0 {
      CountDown(Tick(s), n - 1);
    }
  }

  /**
   * A full session runs out after exactly `timeLeft` ticks, at which point
   * the count goes up by one and the next session starts with its full time.
   */
  lemma SessionRunsOut(s: PomodoroState)
    requires s.timeLeft >= 1
    ensures var r := Ticks(s, s.timeLeft);
      && r.completedSessions == s.completedSessions + 1
      && r.session == NextSession(s.session, s.completedSessions + 1)
      && r.timeLeft == Duration(r.session)
  {
    CountDown(s, s.timeLeft - 1);
    var before := Ticks(s, s.timeLeft - 1);
    TicksSplit(s, s.timeLeft - 1, 1);
    assert Ticks(before, 1) == Tick(before);
  }

  lemma {:induction false} TicksSplit(s: PomodoroState, m: nat, n: nat)
    decreases m
    ensures Ticks(s, m + n) == Ticks(Ticks(s, m), n)
  {
    if m > 0 {
      TicksSplit(Tick(s), m - 1, n);
    }
  }

  /**
   * Ticking alone keeps work sessions on even counts and breaks on odd ones
   * (the count goes up after breaks too), and never reaches the long break.
   */
  predicate EvenWork(s: PomodoroState) {
    (s.session == Work <==> s.completedSessions % 2 == 0) && s.session != LongBreak
  }

  lemma TickKeepsEvenWork(s: PomodoroState)
    requires EvenWork(s)
    ensures EvenWork(Tick(s))
  {
    if s.timeLeft <= 1 {
      var c := s.completedSessions + 1;
      if s.session == Work {
        if c % 4 == 0 {
          FourDividesEven(c);
        }
        assert NextSession(Work, c) == ShortBreak;
      } else {
        assert NextSession(s.session, c) == Work;
      }
    }
  }

  lemma FourDividesEven(c: int)
    requires c % 4 == 0
    ensures c % 2 == 0
  {
    assert c == 2 * (2 * (c / 4));
  }

  /**
   * As written, a timer started fresh and left to tick never gets a long
   * break: every work session ends on an odd count, and `% 4 == 0` only
   * holds for even ones.
   */
  lemma {:induction false} TickingNeverReachesLongBreak(s: PomodoroState, n: nat)
    requires EvenWork(s)
    decreases n
    ensures Ticks(s, n).session != LongBreak
  {
    if n > 0 {
      TickKeepsEvenWork(s);
      TickingNeverReachesLongBreak(Tick(s), n - 1);
    }
  }

  lemma FreshTimerNeverLongBreak(n: nat)
    ensures Ticks(Initial, n).session != LongBreak
  {
    TickingNeverReachesLongBreak(Initial, n);
  }

  /**
   * The evidently intended tick: the count is of finished work sessions
   * (pomodoros), so that every fourth one is followed by the long break.
   */
  function IntendedTick(s: PomodoroState): (r: PomodoroState)
    ensures s.timeLeft > 1 ==> r == Tick(s)
    ensures s.timeLeft <= 1 ==> r.completedSessions == s.completedSessions + (if s.session == Work then 1 else 0)
    ensures s.timeLeft <= 1 ==> r.session == NextSession(s.session, r.completedSessions)
  {
    if s.timeLeft <= 1 then
      var completed := if s.session == Work then s.completedSessions + 1 else s.completedSessions;
      var next := NextSession(s.session, completed);
      s.(isRunning := false, isPaused := false, timeLeft := Duration(next), totalTime := Duration(next),
         session := next, completedSessions := completed,
         currentTask := if next == Work then s.currentTask else None)
    else
      s.(timeLeft := s.timeLeft - 1)
  }

  /** Runs the current session to its end with the intended tick. */
  function FinishIntended(s: PomodoroState): PomodoroState {
    IntendedTick(s.(timeLeft := 1))
  }

  /**
   * With the intended tick, the `k`-th work session (counted from one) is
   * followed by a long break exactly when `k` is a multiple of four, and
   * every break is followed by work with the count unchanged.
   */
  lemma IntendedCycle(s: PomodoroState)
    ensures s.session == Work ==>
      && FinishIntended(s).completedSessions == s.completedSessions + 1
      && (FinishIntended(s).session == LongBreak <==> (s.completedSessions + 1) % 4 == 0)
      && FinishIntended(s).session != Work
    ensures s.session != Work ==>
      FinishIntended(s).session == Work && FinishIntended(s).completedSessions == s.completedSessions
  {
  }

  /** From a fresh timer, the fourth work session ends in the long break with the intended tick. */
  lemma IntendedFourthWorkIsLong()
    ensures var s1 := FinishIntended(Initial);
      var s2 := FinishIntended(s1); var s3 := FinishIntended(s2); var s4 := FinishIntended(s3);
      var s5 := FinishIntended(s4); var s6 := FinishIntended(s5); var s7 := FinishIntended(s6);
      var s8 := FinishIntended(s7);
      && [s1.session, s2.session, s3.session, s4.session, s5.session, s6.session, s7.session, s8.session]
         == [ShortBreak, Work, ShortBreak, Work, ShortBreak, Work, LongBreak, Work]
      && s8.completedSessions == 4
  {
  }

  /**
   * `stopPomodoro` keeps the session but gives it the work length: stopping
   * during a break leaves a break whose total is 25 minutes.
   */
  lemma StopDuringBreak(s: PomodoroState)
    requires s.session != Work
    ensures Stop(s).session != Work && Stop(s).totalTime == Duration(Work) != Duration(Stop(s).session)
  {
  }

  /** A decimal digit. */
  function Digit(d: int): (c: char)
    requires 0 <= d < 10
    ensures '0' <= c <= '9'
  {
    "0123456789"[d]
  }

  function DigitValue(c: char): int {
    c as int - '0' as int
  }

  /** `n.toString()` for a natural number. */
  function Decimal(n: nat): (r: string)
    ensures |r| >= 1
    decreases n
  {
    if n < 10 then [Digit(n)] else Decimal(n / 10) + [Digit(n % 10)]
  }

  /** `padStart(2, '0')`. */
  function Pad2(s: string): (r: string)
    ensures |r| == if |s| < 2 then 2 else |s|
  {
    if |s| == 0 then "00" else if |s| == 1 then "0" + s else s
  }

  /**
   * `formattedTime`: minutes and seconds, each padded to two digits. The
   * seconds always take exactly the last two characters, after the colon.
   */
  function FormattedTime(t: nat): (r: string)
    ensures |r| >= 5 && r[|r| - 3] == ':'
  {
    PadBelowHundred(t % 60);
    Pad2(Decimal(t / 60)) + ":" + Pad2(Decimal(t % 60))
  }

  /** Reads back a two-digit field. */
  function TwoDigits(s: string): int
    requires |s| == 2
  {
    10 * DigitValue(s[0]) + DigitValue(s[1])
  }

  /** Reads back an `MM:SS` display. */
  function ParseTime(s: string): int
    requires |s| == 5
  {
    60 * TwoDigits(s[..2]) + TwoDigits(s[3..])
  }

  /** Below 100 a number pads to exactly its two digits. */
  lemma PadBelowHundred(n: nat)
    requires n < 100
    ensures Pad2(Decimal(n)) == [Digit(n / 10), Digit(n % 10)]
  {
    if n >= 10 {
      assert Decimal(n / 10) == [Digit(n / 10)];
    }
  }

  lemma DigitRoundTrip(d: int)
    requires 0 <= d < 10
    ensures DigitValue(Digit(d)) == d
  {
    assert "0123456789"[d] as int == '0' as int + d by {
      if d == 0 {} else if d == 1 {} else if d == 2 {} else if d == 3 {} else if d == 4 {}
      else if d == 5 {} else if d == 6 {} else if d == 7 {} else if d == 8 {} else {}
    }
  }

  /** A two-digit field reads back to its number. */
  lemma TwoDigitsRoundTrip(n: nat)
    requires n < 100
    ensures var p := Pad2(Decimal(n)); |p| == 2 && TwoDigits(p) == n
  {
    PadBelowHundred(n);
    DigitRoundTrip(n / 10);
    DigitRoundTrip(n % 10);
  }

  /** Under 100 minutes the display has five characters, a colon in the middle, and reads back to `t`. */
  lemma FormattedTimeRoundTrip(t: nat)
    requires t < 6000
    ensures |FormattedTime(t)| == 5 && FormattedTime(t)[2] == ':'
    ensures ParseTime(FormattedTime(t)) == t
  {
    var mm := Pad2(Decimal(t / 60));
    var ss := Pad2(Decimal(t % 60));
    PadBelowHundred(t / 60);
    PadBelowHundred(t % 60);
    TwoDigitsRoundTrip(t / 60);
    TwoDigitsRoundTrip(t % 60);
    var f := FormattedTime(t);
    assert f == mm + ":" + ss;
    assert f[..2] == mm;
    assert f[3..] == ss;
  }

  /** Every valid state's time displays in `MM:SS` form. */
  lemma ValidStateDisplays(s: PomodoroState)
    requires Valid(s)
    ensures |FormattedTime(s.timeLeft)| == 5 && ParseTime(FormattedTime(s.timeLeft)) == s.timeLeft
  {
    FormattedTimeRoundTrip(s.timeLeft);
  }
}
