/**
 * The timer as the page runs it: one object whose fields are the page's
 * three globals (the playlist position, the seconds left, and whether the
 * one-second tick source is active), with one method per handler. Each
 * method is proved to take the state where the matching function of
 * TimerModel takes it, and to keep the invariant.
 */
module IntervalTimer {

  import opened TimerModel
  import opened IntervalCategory
  import opened ClockFormat

  class PomodoroTimer {
    const intervals: seq<Interval>
    var index: int
    var timeLeft: int
    var running: bool

    /** The position is within the playlist and the countdown within the current interval. */
    ghost predicate Valid()
      reads this
    {
      ValidPlaylist(intervals) && Inv(intervals, State())
    }

    /** The abstract value of the object. */
    function State(): TimerState
      reads this
    {
      TimerState(index, timeLeft, running)
    }

    /** Start-up: the first interval is loaded and the timer is stopped. */
    constructor (playlist: seq<Interval>)
      requires ValidPlaylist(playlist)
      ensures Valid() && intervals == playlist
      ensures State() == Initial(playlist)
    {
      intervals := playlist;
      index, timeLeft, running := 0, 0, false;
      new;
      LoadInterval();
    }

    /** loadInterval: the full duration of the current interval; the position and the run flag stay. */
    method LoadInterval()
      requires ValidPlaylist(intervals) && 0 <= index < |intervals|
      modifies this
      ensures Valid()
      ensures State() == Load(intervals, old(State()))
      ensures index == old(index) && running == old(running)
      ensures timeLeft == intervals[index].duration
    {
      var current := intervals[index];
      timeLeft := current.duration;
    }

    /** startTimer: a running timer pauses and a paused one starts; nothing else changes. */
    method StartTimer()
      requires Valid()
      modifies this
      ensures Valid()
      ensures State() == Toggle(old(State()))
      ensures running == !old(running)
      ensures index == old(index) && timeLeft == old(timeLeft)
    {
      if running {
        running := false;
      } else {
        running := true;
      }
    }

    /** moveToNextInterval: the next position (back to the first after the last), loaded, then started. */
    method MoveToNextInterval()
      requires Valid()
      modifies this
      ensures Valid()
      ensures State() == Advance(intervals, old(State()))
      ensures index == (old(index) + 1) % |intervals|
      ensures timeLeft == intervals[index].duration
      ensures running == !old(running)
    {
      index := index + 1;
      if index >= |intervals| {
        index := 0;
      }
      LoadInterval();
      StartTimer();
    }

    /** updateTimer: one second off, or, with nothing left, stop the tick source and move on. */
    method UpdateTimer()
      requires Valid()
      modifies this
      ensures Valid()
      ensures State() == Tick(intervals, old(State()))
      ensures old(timeLeft) > 0 ==> timeLeft == old(timeLeft) - 1 && index == old(index) && running == old(running)
      ensures old(timeLeft) <= 0 ==> index == (old(index) + 1) % |intervals| && timeLeft == intervals[index].duration && running
    {
      if timeLeft <= 0 {
        running := false;
        MoveToNextInterval();
        return;
      }
      timeLeft := timeLeft - 1;
    }

    /** resetTimer: from any state, stopped at the first interval with its full duration. */
    method ResetTimer()
      requires Valid()
      modifies this
      ensures Valid()
      ensures State() == Reset(intervals, old(State()))
      ensures index == 0 && timeLeft == intervals[0].duration && !running
    {
      running := false;
      index := 0;
      LoadInterval();
    }

    /** The text of the numeric display. */
    method DisplayText() returns (text: string)
      requires Valid()
      ensures text == FormatClock(timeLeft)
      ensures ParseClock(text) == Some(timeLeft)
      ensures timeLeft < 6000 ==> |text| == 5
    {
      text := FormatClock(timeLeft);
      FormatClockRoundTrip(timeLeft);
    }

    /** The label of the current interval and the category that picks the ring's colour. */
    method CurrentLabel() returns (name: string, category: Category)
      requires Valid()
      ensures name == intervals[index].name
      ensures category == Break <==> exists i :: 0 <= i <= |name| - 5 && MatchesAt(Lower(name), "break", i)
    {
      name := intervals[index].name;
      category := Classify(name);
    }

    /** The progress ring's fraction as an exact pair: seconds left out of the interval's duration. */
    method Progress() returns (remaining: int, total: int)
      requires Valid()
      ensures 0 <= remaining <= total && total > 0
      ensures remaining == timeLeft && total == intervals[index].duration
    {
      remaining, total := timeLeft, intervals[index].duration;
    }
  }

  /**
   * The two-interval scenario run on the object: start, then ten ticks leave
   * the work interval at zero, running; the eleventh moves to the break with
   * its full ten seconds and keeps running.
   */
  method WorkBreakRun() returns (atZero: TimerState, after: TimerState)
    ensures atZero == TimerState(0, 0, true)
    ensures after == TimerState(1, 10, true)
  {
    var p := [Interval("Work", 10), Interval("Break", 10)];
    var timer := new PomodoroTimer(p);
    timer.StartTimer();
    var k := 0;
    while k < 10
      invariant 0 <= k <= 10
      invariant timer.Valid() && timer.intervals == p
      invariant timer.State() == TimerState(0, 10 - k, true)
    {
      timer.UpdateTimer();
      k := k + 1;
    }
    atZero := timer.State();
    timer.UpdateTimer();
    after := timer.State();
  }
}
