/**
 * The Pomodoro countdown (script.js:642-685, 703-705) as a state machine: the
 * remaining seconds and whether the one-second interval is armed.
 */
module Focus {
  /** 25 minutes (script.js:12, 683). */
  const SessionSeconds: int := 25 * 60

  datatype Timer = Timer(time: int, running: bool)

  /** The state at start-up and after every reset. */
  const Initial: Timer := Timer(SessionSeconds, false)

  /** The play/pause button, the reset button, and one elapsed second. */
  datatype Event = Toggle | Reset | Tick

  /** `startPomodoro` arms the interval. */
  function Start(s: Timer): Timer {
    s.(running := true)
  }

  /** `pausePomodoro` clears the interval; the remaining time is kept. */
  function Pause(s: Timer): Timer {
    s.(running := false)
  }

  /** `resetPomodoro`: pause, then restore the full session. */
  function ResetTimer(s: Timer): Timer {
    Pause(s).(time := SessionSeconds)
  }

  /**
   * The interval callback: one second off, and a session that reaches zero is
   * completed, which resets the timer. Without an armed interval nothing fires.
   */
  function TickTimer(s: Timer): Timer {
    if !s.running then s
    else if s.time - 1 <= 0 then ResetTimer(s.(time := s.time - 1))
    else s.(time := s.time - 1)
  }

  function Step(s: Timer, e: Event): Timer {
    match e
    case Toggle => if s.running then Pause(s) else Start(s)
    case Reset => ResetTimer(s)
    case Tick => TickTimer(s)
  }

  /** The state after a sequence of events. */
  function Run(s: Timer, events: seq<Event>): Timer
    decreases |events|
  {
    if events == [] then s else Run(Step(s, events[0]), events[1..])
  }

  /** The remaining time is always between one second and a full session. */
  predicate InRange(s: Timer) {
    1 <= s.time <= SessionSeconds
  }

  /** Reset always yields the full, paused session. */
  lemma ResetIsInitial(s: Timer)
    ensures Step(s, Reset) == Initial
  {
  }

  /** A tick that brings the time to zero completes the session: full time, paused. */
  lemma LastTickResets(s: Timer)
    requires s.running && s.time <= 1
    ensures Step(s, Tick) == Initial
  {
  }

  lemma StepStaysInRange(s: Timer, e: Event)
    requires InRange(s)
    ensures InRange(Step(s, e))
  {
  }

  /** Whatever the user and the clock do, the remaining time stays within 1..1500. */
  lemma {:induction false} RunStaysInRange(s: Timer, events: seq<Event>)
    requires InRange(s)
    ensures InRange(Run(s, events))
    decreases |events|
  {
    if events != [] {
      StepStaysInRange(s, events[0]);
      RunStaysInRange(Step(s, events[0]), events[1..]);
    }
  }

  lemma {:induction false} RunConcat(s: Timer, a: seq<Event>, b: seq<Event>)
    ensures Run(s, a + b) == Run(Run(s, a), b)
    decreases |a|
  {
    if a == [] {
      assert a + b == b;
    } else {
      assert (a + b)[0] == a[0];
      assert (a + b)[1..] == a[1..] + b;
      RunConcat(Step(s, a[0]), a[1..], b);
    }
  }

  /** `n` seconds of the clock. */
  function Ticks(n: nat): seq<Event> {
    seq(n, _ => Tick)
  }

  /** A paused timer ignores the clock. */
  lemma {:induction false} PausedIgnoresTicks(s: Timer, n: nat)
    requires !s.running
    ensures Run(s, Ticks(n)) == s
  {
    if n > 0 {
      assert Ticks(n)[1..] == Ticks(n - 1);
      PausedIgnoresTicks(s, n - 1);
    }
  }

  /** While fewer ticks than the remaining seconds arrive, the timer counts down one per tick. */
  lemma {:induction false} CountDown(t: int, k: nat)
    requires k < t
    ensures Run(Timer(t, true), Ticks(k)) == Timer(t - k, true)
  {
    if k > 0 {
      assert Ticks(k)[1..] == Ticks(k - 1);
      CountDown(t - 1, k - 1);
    }
  }

  /** A running timer with `t` seconds left completes after exactly `t` ticks and is back at its initial state. */
  lemma SessionCompletes(t: int)
    requires t >= 1
    ensures Run(Timer(t, true), Ticks(t)) == Initial
  {
    assert Ticks(t) == Ticks(t - 1) + [Tick];
    RunConcat(Timer(t, true), Ticks(t - 1), [Tick]);
    CountDown(t, t - 1);
  }
}
