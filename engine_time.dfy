/** src/engine/time/mod.rs: a countdown timer with an enabled flag. The
    wall clock is an explicit `now` (in any fixed unit); the elapsed time of
    a start in the future is zero, as for a monotonic clock. */
module EngineTime {
  /** `ConsumeAction`: what a firing timer does next. */
  datatype ConsumeAction = Restart | Disable

  /** The fields of a `Timer`. */
  datatype TimerState = TimerState(enabled: bool, start: int, duration: nat)

  /** Time since `start`, saturating at zero. */
  function Elapsed(start: int, now: int): (r: nat)
    ensures now >= start ==> start + r == now
    ensures now < start ==> r == 0
  {
    if now >= start then now - start else 0
  }

  /** `done`: the duration has passed, whatever the enabled flag says. */
  predicate Done(s: TimerState, now: int) {
    Elapsed(s.start, now) >= s.duration
  }

  /** `consume`: whether the timer fired, and the timer afterwards. */
  function ConsumeStep(s: TimerState, action: ConsumeAction, now: int): (r: (bool, TimerState))
    ensures r.0 <==> s.enabled && Done(s, now)
    ensures !r.0 ==> r.1 == s
    ensures r.0 && action == Restart ==> r.1 == s.(start := now)
    ensures r.0 && action == Disable ==> r.1 == s.(enabled := false)
  {
    if !s.enabled then (false, s)
    else if Done(s, now) then
      match action
      case Restart => (true, s.(start := now))
      case Disable => (true, s.(enabled := false))
    else (false, s)
  }

  /** `Timer`. */
  class Timer {
    var enabled: bool
    var start: int
    const duration: nat

    function State(): TimerState
      reads this
    {
      TimerState(enabled, start, duration)
    }

    /** `new`: started now. */
    constructor (duration: nat, enabled: bool, now: int)
      ensures State() == TimerState(enabled, now, duration)
    {
      this.enabled := enabled;
      this.start := now;
      this.duration := duration;
    }

    /** `done`. */
    predicate IsDone(now: int)
      reads this
    {
      Done(State(), now)
    }

    /** `start`: start counting now and enable. */
    method Start(now: int)
      modifies this
      ensures State() == old(State()).(start := now, enabled := true)
    {
      start := now;
      enabled := true;
    }

    /** `restart`: start counting now; the flag is untouched. */
    method Restart(now: int)
      modifies this
      ensures State() == old(State()).(start := now)
    {
      start := now;
    }

    /** `consume`. */
    method Consume(action: ConsumeAction, now: int) returns (done: bool)
      modifies this
      ensures (done, State()) == ConsumeStep(old(State()), action, now)
    {
      if !enabled {
        return false;
      }
      done := IsDone(now);
      if done {
        match action
        case Restart => Restart(now);
        case Disable => enabled := false;
      }
    }

    /** `consume_map`: the callback is a transformer of the caller's state
        and runs exactly when the timer fires. */
    method ConsumeMap<S>(action: ConsumeAction, now: int, callback: S -> S, context: S) returns (done: bool, after: S)
      modifies this
      ensures (done, State()) == ConsumeStep(old(State()), action, now)
      ensures after == if done then callback(context) else context
    {
      done := Consume(action, now);
      after := context;
      if done {
        after := callback(context);
      }
    }
  }

  /** The outcome of consuming at each instant in turn. */
  function ConsumeAll(s: TimerState, action: ConsumeAction, times: seq<int>): (r: (nat, TimerState))
    decreases |times|
  {
    if times == [] then (0, s)
    else
      var (fired, next) := ConsumeStep(s, action, times[0]);
      var (count, last) := ConsumeAll(next, action, times[1..]);
      ((if fired then 1 else 0) + count, last)
  }

  /** A disabled timer never fires and never changes under `consume`. */
  lemma {:induction false} DisabledStaysQuiet(s: TimerState, action: ConsumeAction, times: seq<int>)
    requires !s.enabled
    ensures ConsumeAll(s, action, times) == (0, s)
    decreases |times|
  {
    if times != [] {
      DisabledStaysQuiet(s, action, times[1..]);
    }
  }

  /** With `Disable` a timer fires at most once until it is started again. */
  lemma {:induction false} DisableFiresOnce(s: TimerState, times: seq<int>)
    ensures ConsumeAll(s, Disable, times).0 <= 1
    ensures ConsumeAll(s, Disable, times).0 == 1 ==> !ConsumeAll(s, Disable, times).1.enabled
    decreases |times|
  {
    if times != [] {
      var (fired, next) := ConsumeStep(s, Disable, times[0]);
      if fired {
        DisabledStaysQuiet(next, Disable, times[1..]);
      } else {
        DisableFiresOnce(next, times[1..]);
      }
    }
  }

  /** With `Restart` the timer stays enabled, and right after firing it is
      not done again before a full duration has passed. */
  lemma RestartWaitsFullDuration(s: TimerState, now: int, later: int)
    requires ConsumeStep(s, Restart, now).0
    requires now <= later < now + s.duration
    ensures ConsumeStep(s, Restart, now).1.enabled
    ensures !Done(ConsumeStep(s, Restart, now).1, later)
  {
  }

  /** Restarting never changes the enabled flag. */
  lemma {:induction false} RestartKeepsFlag(s: TimerState, times: seq<int>)
    ensures ConsumeAll(s, Restart, times).1.enabled == s.enabled
    ensures ConsumeAll(s, Restart, times).1.duration == s.duration
    decreases |times|
  {
    if times != [] {
      RestartKeepsFlag(ConsumeStep(s, Restart, times[0]).1, times[1..]);
    }
  }
}
