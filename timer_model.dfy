/**
 * The interval/timer state machine as values: a fixed playlist of named
 * intervals and the three things that change, the position in the
 * playlist, the whole seconds left, and whether the one-second tick source
 * is active. Each operation of the timer is a function from the old state
 * to the new one; the class in IntervalTimer is proved to follow them.
 */
module TimerModel {

  import opened IntervalCategory

  /** One named, timed phase of the playlist. */
  datatype Interval = Interval(name: string, duration: int)

  /** The mutable part of the timer: playlist position, seconds left, tick source active. */
  datatype TimerState = TimerState(index: int, timeLeft: int, running: bool)

  /** A playlist the timer can work with: at least one interval, every duration positive. */
  predicate ValidPlaylist(p: seq<Interval>) {
    |p| > 0 && forall i :: 0 <= i < |p| ==> p[i].duration > 0
  }

  /** The position is within the playlist and the countdown within the current interval. */
  predicate Inv(p: seq<Interval>, s: TimerState) {
    0 <= s.index < |p| && 0 <= s.timeLeft <= p[s.index].duration
  }

  /** Interval `i` freshly loaded: the whole of its duration is left. */
  function Loaded(p: seq<Interval>, i: int, running: bool): TimerState
    requires 0 <= i < |p|
  {
    TimerState(i, p[i].duration, running)
  }

  /** The stock playlist: four work intervals, each followed by a break, the last one long. */
  function StockPlaylist(): (p: seq<Interval>)
    ensures ValidPlaylist(p) && |p| == 8
    ensures forall i :: 0 <= i < |p| ==> p[i].duration == 10
  {
    [
    Interval("Work 1", 1 * 10),
    Interval("Short Break", 1 * 10),
    Interval("Work 2", 1 * 10),
    Interval("Short Break", 1 * 10),
    Interval("Work 3", 1 * 10),
    Interval("Short Break", 1 * 10),
    Interval("Work 4", 1 * 10),
    Interval("Long Break", 1 * 10)
    ]
  }

  /** loadInterval: the full duration of the current interval; position and run flag untouched. */
  function Load(p: seq<Interval>, s: TimerState): (r: TimerState)
    requires ValidPlaylist(p) && 0 <= s.index < |p|
    ensures Inv(p, r)
    ensures r == Loaded(p, s.index, s.running)
  {
    s.(timeLeft := p[s.index].duration)
  }

  /** startTimer: a running timer pauses, a paused one starts, whatever the time left. */
  function Toggle(s: TimerState): (r: TimerState)
    ensures r.running != s.running
    ensures r.index == s.index && r.timeLeft == s.timeLeft
  {
    s.(running := !s.running)
  }

  /** The position after `i`, going back to the first interval after the last. */
  function NextIndex(p: seq<Interval>, i: int): (j: int)
    requires 0 <= i < |p|
    ensures 0 <= j < |p|
    ensures j == (i + 1) % |p|
  {
    if i + 1 >= |p| then 0 else i + 1
  }

  /** moveToNextInterval: step the position (with wrap-around), load it, then toggle the run flag. */
  function Advance(p: seq<Interval>, s: TimerState): (r: TimerState)
    requires ValidPlaylist(p) && Inv(p, s)
    ensures Inv(p, r)
    ensures r == Loaded(p, (s.index + 1) % |p|, !s.running)
  {
    Toggle(Load(p, s.(index := NextIndex(p, s.index))))
  }

  /**
   * updateTimer: the one-second tick. Completion is detected at the start of
   * a tick: with nothing left the tick source is stopped and the timer moves
   * on (which starts it again); otherwise one second is taken off.
   */
  function Tick(p: seq<Interval>, s: TimerState): (r: TimerState)
    requires ValidPlaylist(p) && Inv(p, s)
    ensures Inv(p, r)
    ensures s.timeLeft > 0 ==> r.index == s.index && r.running == s.running && r.timeLeft == s.timeLeft - 1
    ensures s.timeLeft <= 0 ==> r == Loaded(p, (s.index + 1) % |p|, true)
  {
    if s.timeLeft <= 0 then Advance(p, s.(running := false))
    else s.(timeLeft := s.timeLeft - 1)
  }

  /** resetTimer: from any state, the first interval, loaded and stopped. */
  function Reset(p: seq<Interval>, s: TimerState): (r: TimerState)
    requires ValidPlaylist(p)
    ensures Inv(p, r)
    ensures r == Loaded(p, 0, false)
  {
    Load(p, s.(running := false, index := 0))
  }

  /** The state right after start-up: the page loads the first interval once, stopped. */
  function Initial(p: seq<Interval>): (r: TimerState)
    requires ValidPlaylist(p)
    ensures Inv(p, r)
    ensures r == Loaded(p, 0, false)
  {
    Load(p, TimerState(0, 0, false))
  }

  /** `k` ticks in a row. */
  function Ticks(p: seq<Interval>, s: TimerState, k: nat): (r: TimerState)
    requires ValidPlaylist(p) && Inv(p, s)
    ensures Inv(p, r)
    decreases k
  {
    if k == 0 then s else Tick(p, Ticks(p, s, k - 1))
  }

  /** Ticking `a` times and then `b` times is ticking `a + b` times. */
  lemma {:induction false} TicksAdd(p: seq<Interval>, s: TimerState, a: nat, b: nat)
    requires ValidPlaylist(p) && Inv(p, s)
    ensures Ticks(p, Ticks(p, s, a), b) == Ticks(p, s, a + b)
    decreases b
  {
    if b > 0 {
      TicksAdd(p, s, a, b - 1);
    }
  }

  /** While time is left, each tick takes exactly one second off and changes nothing else. */
  lemma {:induction false} Countdown(p: seq<Interval>, s: TimerState, k: nat)
    requires ValidPlaylist(p) && Inv(p, s)
    requires k <= s.timeLeft
    ensures Ticks(p, s, k) == s.(timeLeft := s.timeLeft - k)
    decreases k
  {
    if k > 0 {
      Countdown(p, s, k - 1);
    }
  }

  /**
   * An interval with `t` seconds left, running or paused, reaches zero after
   * `t` ticks without moving on, and the tick after that moves to the next
   * interval, loaded in full and running.
   */
  lemma Completion(p: seq<Interval>, s: TimerState)
    requires ValidPlaylist(p) && Inv(p, s)
    ensures Ticks(p, s, s.timeLeft) == s.(timeLeft := 0)
    ensures Ticks(p, s, s.timeLeft + 1) == Loaded(p, (s.index + 1) % |p|, true)
  {
    Countdown(p, s, s.timeLeft);
  }

  /** No completion before the countdown has run out: the position stays put for `timeLeft` ticks. */
  lemma NoEarlyCompletion(p: seq<Interval>, s: TimerState, k: nat)
    requires ValidPlaylist(p) && Inv(p, s)
    requires k <= s.timeLeft
    ensures Ticks(p, s, k).index == s.index && Ticks(p, s, k).running == s.running
    ensures Ticks(p, s, k).timeLeft > 0 <==> k < s.timeLeft
  {
    Countdown(p, s, k);
  }

  /** The number of ticks `n` consecutive intervals from position `i` take: each needs its duration plus one. */
  function Span(p: seq<Interval>, i: int, n: nat): (t: nat)
    requires ValidPlaylist(p) && 0 <= i < |p|
    decreases n
  {
    if n == 0 then 0 else p[i].duration + 1 + Span(p, NextIndex(p, i), n - 1)
  }

  /** Auto-advance: `n` intervals on, the timer is at position `i + n` (mod the length), freshly loaded and running. */
  lemma {:induction false} RunIntervals(p: seq<Interval>, i: int, n: nat)
    requires ValidPlaylist(p) && 0 <= i < |p|
    ensures Ticks(p, Loaded(p, i, true), Span(p, i, n)) == Loaded(p, (i + n) % |p|, true)
    decreases n
  {
    var s := Loaded(p, i, true);
    if n == 0 {
      ModUnique(i, |p|, 0, i);
    } else {
      var j := NextIndex(p, i);
      var d := p[i].duration + 1;
      var rest := Span(p, j, n - 1);
      assert Span(p, i, n) == d + rest;
      Completion(p, s);
      TicksAdd(p, s, d, rest);
      RunIntervals(p, j, n - 1);
      ModStep(i, n, |p|);
    }
  }

  /** Division with remainder has only one remainder. */
  lemma ModUnique(y: int, len: int, q: int, r: int)
    requires len > 0 && 0 <= r < len && y == q * len + r
    ensures y % len == r
  {
    var d := q - y / len;
    assert d * len == y % len - r;
    assert d >= 1 ==> d * len >= len;
    assert d <= -1 ==> d * len <= -len;
  }

  lemma ModStep(i: int, n: nat, len: nat)
    requires 0 <= i < len && n > 0
    ensures ((i + 1) % len + (n - 1)) % len == (i + n) % len
  {
    if i + 1 == len {
      ModUnique(len, len, 1, 0);
      ModUnique(i + n, len, (n - 1) / len + 1, (n - 1) % len);
    } else {
      ModUnique(i + 1, len, 0, i + 1);
    }
  }

  /** Once started, the timer loops: after one full cycle of ticks it is back at the first interval, full and running. */
  lemma CycleRepeats(p: seq<Interval>)
    requires ValidPlaylist(p)
    ensures Ticks(p, Toggle(Initial(p)), Span(p, 0, |p|)) == Toggle(Initial(p))
  {
    RunIntervals(p, 0, |p|);
    assert |p| % |p| == 0;
  }

  /** When every interval lasts `d` seconds, `n` intervals take `n * (d + 1)` ticks. */
  lemma {:induction false} SpanUniform(p: seq<Interval>, i: int, n: nat, d: int)
    requires ValidPlaylist(p) && 0 <= i < |p|
    requires forall k :: 0 <= k < |p| ==> p[k].duration == d
    ensures Span(p, i, n) == n * (d + 1)
    decreases n
  {
    if n > 0 {
      SpanUniform(p, NextIndex(p, i), n - 1, d);
    }
  }

  /** On the stock playlist, once started, the whole cycle of eight intervals takes 88 ticks and then repeats. */
  lemma StockCycle()
    ensures Span(StockPlaylist(), 0, 8) == 88
    ensures Ticks(StockPlaylist(), Toggle(Initial(StockPlaylist())), 88) == Toggle(Initial(StockPlaylist()))
  {
    SpanUniform(StockPlaylist(), 0, 8, 10);
    CycleRepeats(StockPlaylist());
  }

  /** The names of the stock playlist, position by position. */
  lemma StockPlaylistNames()
    ensures |StockPlaylist()| == 8
    ensures forall i :: 0 <= i < 8 && i % 2 == 0 ==> StockPlaylist()[i].name in {"Work 1", "Work 2", "Work 3", "Work 4"}
    ensures forall i :: 0 <= i < 8 && i % 2 == 1 ==> StockPlaylist()[i].name in {"Short Break", "Long Break"}
  {
  }

  /** In the stock playlist work and break intervals alternate, starting with work. */
  lemma StockPlaylistAlternates()
    ensures forall i :: 0 <= i < |StockPlaylist()| ==>
      Classify(StockPlaylist()[i].name) == (if i % 2 == 0 then Work else Break)
  {
    ClassifyBreakExamples();
    ClassifyWorkExamples();
    StockPlaylistNames();
  }

  /**
   * The two-interval scenario: started from start-up, after ten ticks the
   * work interval shows zero, still running; the eleventh tick moves to the
   * break with its full ten seconds, running.
   */
  lemma WorkBreakScenario()
    ensures Ticks([Interval("Work", 10), Interval("Break", 10)],
                  Toggle(Initial([Interval("Work", 10), Interval("Break", 10)])), 10)
            == TimerState(0, 0, true)
    ensures Ticks([Interval("Work", 10), Interval("Break", 10)],
                  Toggle(Initial([Interval("Work", 10), Interval("Break", 10)])), 11)
            == TimerState(1, 10, true)
  {
    var p := [Interval("Work", 10), Interval("Break", 10)];
    Completion(p, Toggle(Initial(p)));
  }
}
