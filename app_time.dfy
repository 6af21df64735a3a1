/** src/application/time/mod.rs: a plain countdown timer and a timeout that
    invokes a visitor once, a fixed number of times, or forever. The wall
    clock is an explicit `now`; elapsed time saturates at zero. */
module AppTime {
  import EngineTime

  /** `Timer::done` on the fields `start` and `duration`. */
  predicate TimeIsUp(start: int, duration: nat, now: int) {
    EngineTime.Elapsed(start, now) >= duration
  }

  /** `Timer`. */
  class Timer {
    var start: int
    const duration: nat

    /** `new`: started now. */
    constructor (duration: nat, now: int)
      ensures start == now && this.duration == duration
    {
      start := now;
      this.duration := duration;
    }

    /** `reset`. */
    method Reset(now: int)
      modifies this
      ensures start == now
    {
      start := now;
    }

    /** `done`. */
    predicate IsDone(now: int)
      reads this
    {
      TimeIsUp(start, duration, now)
    }

    /** `consume`: fires when done and then starts over; otherwise nothing
        changes. */
    method Consume(now: int) returns (done: bool)
      modifies this
      ensures done == TimeIsUp(old(start), duration, now)
      ensures start == if done then now else old(start)
    {
      done := IsDone(now);
      if done {
        Reset(now);
      }
    }

    /** `debounce`: reports whether it was done, and starts over in any
        case, so it fires only after a full quiet duration. */
    method Debounce(now: int) returns (done: bool)
      modifies this
      ensures done == TimeIsUp(old(start), duration, now)
      ensures start == now
    {
      done := IsDone(now);
      Reset(now);
    }
  }

  /** `Repeat`. */
  datatype Repeat = Never | Forever | For(times: nat)

  /** `TimeoutState`. */
  datatype TimeoutState = Active | Expired

  /** The fields of a `Timeout`, its timer's start and duration flattened. */
  datatype TimeoutFields = TimeoutFields(start: int, duration: nat, repeat: Repeat, counter: nat, dead: bool)

  /** One `on_timeout` call: the returned state, whether the visitor ran,
      and the fields afterwards. */
  function OnTimeoutStep(t: TimeoutFields, now: int): (r: (TimeoutState, bool, TimeoutFields))
    ensures r.0 == Expired <==> t.dead
    ensures r.1 <==> !t.dead && TimeIsUp(t.start, t.duration, now)
    ensures !r.1 ==> r.2 == t
    ensures r.1 ==> r.2.counter == t.counter + 1 && r.2.repeat == t.repeat && r.2.duration == t.duration
    ensures r.1 ==> (r.2.dead <==> t.repeat == Never || (t.repeat.For? && t.counter + 1 >= t.repeat.times))
    ensures r.1 ==> r.2.start == if t.repeat == Forever then now else t.start
  {
    if t.dead then (Expired, false, t)
    else if TimeIsUp(t.start, t.duration, now) then
      var counted := t.(counter := t.counter + 1);
      match t.repeat
      case Never => (Active, true, counted.(dead := true))
      case For(times) => (Active, true, if counted.counter >= times then counted.(dead := true) else counted)
      case Forever => (Active, true, counted.(start := now))
    else (Active, false, t)
  }

  /** `Timeout`. */
  class Timeout {
    const timer: Timer
    const repeat: Repeat
    var counter: nat
    var dead: bool

    function Fields(): TimeoutFields
      reads this, timer
    {
      TimeoutFields(timer.start, timer.duration, repeat, counter, dead)
    }

    /** `new`: a fresh timer, no firings, alive. */
    constructor (duration: nat, repeat: Repeat, now: int)
      ensures Fields() == TimeoutFields(now, duration, repeat, 0, false)
      ensures fresh(timer)
    {
      timer := new Timer(duration, now);
      this.repeat := repeat;
      counter := 0;
      dead := false;
    }

    /** `reset`: restart the timer only. */
    method Reset(now: int)
      modifies timer
      ensures Fields() == old(Fields()).(start := now)
    {
      timer.Reset(now);
    }

    /** `hard_reset`: alive again, counter zero, timer restarted. */
    method HardReset(now: int)
      modifies this, timer
      ensures Fields() == old(Fields()).(start := now, counter := 0, dead := false)
    {
      dead := false;
      counter := 0;
      Reset(now);
    }

    /** `on_timeout`: the visitor is a transformer of the caller's state. */
    method OnTimeout<S>(now: int, visitor: S -> S, context: S) returns (state: TimeoutState, after: S)
      modifies this, timer
      ensures var (st, fired, fields) := OnTimeoutStep(old(Fields()), now);
        state == st && Fields() == fields && after == if fired then visitor(context) else context
    {
      after := context;
      if dead {
        return Expired, after;
      }
      if timer.IsDone(now) {
        after := visitor(context);
        counter := counter + 1;
        if repeat == Never {
          dead := true;
        } else if repeat.For? {
          if counter >= repeat.times {
            dead := true;
          }
        } else {
          timer.Reset(now);
        }
      }
      state := Active;
    }
  }

  /** Calls of `on_timeout` at the given instants: how often the visitor
      ran, and the fields afterwards. */
  function RunTimeout(t: TimeoutFields, times: seq<int>): (nat, TimeoutFields)
    decreases |times|
  {
    if times == [] then (0, t)
    else
      var (_, fired, next) := OnTimeoutStep(t, times[0]);
      var (count, last) := RunTimeout(next, times[1..]);
      ((if fired then 1 else 0) + count, last)
  }

  /** A dead timeout stays dead and never runs the visitor. */
  lemma {:induction false} DeadStaysDead(t: TimeoutFields, times: seq<int>)
    requires t.dead
    ensures RunTimeout(t, times) == (0, t)
    decreases |times|
  {
    if times != [] {
      DeadStaysDead(t, times[1..]);
    }
  }

  /** `Repeat::Never`: the visitor runs at most once between hard resets. */
  lemma {:induction false} NeverRunsOnce(t: TimeoutFields, times: seq<int>)
    requires t.repeat == Never
    ensures RunTimeout(t, times).0 <= 1
    decreases |times|
  {
    if times != [] {
      var (_, fired, next) := OnTimeoutStep(t, times[0]);
      if fired {
        DeadStaysDead(next, times[1..]);
      } else {
        NeverRunsOnce(next, times[1..]);
      }
    }
  }

  /** The most firings a `For(n)` timeout allows: `For(0)` still fires once,
      since the counter is compared only after it has been incremented. */
  function Allowance(times: nat): (r: nat)
    ensures r >= 1 && r >= times
  {
    if times == 0 then 1 else times
  }

  /** `Repeat::For(n)`: counting from a live timeout whose counter is below
      the allowance, the counter never exceeds it, so the visitor runs at
      most the remaining number of times. */
  lemma {:induction false} ForRunsBounded(t: TimeoutFields, times: seq<int>)
    requires t.repeat.For?
    requires t.counter <= Allowance(t.repeat.times)
    requires !t.dead ==> t.counter < Allowance(t.repeat.times)
    ensures t.counter + RunTimeout(t, times).0 <= Allowance(t.repeat.times)
    ensures RunTimeout(t, times).1.counter == t.counter + RunTimeout(t, times).0
    decreases |times|
  {
    if times != [] {
      var (_, fired, next) := OnTimeoutStep(t, times[0]);
      ForRunsBounded(next, times[1..]);
    }
  }

  /** From a fresh or hard-reset timeout, `For(n)` runs the visitor at most
      `max(n, 1)` times. */
  lemma ForFromFresh(start: int, duration: nat, n: nat, times: seq<int>)
    ensures RunTimeout(TimeoutFields(start, duration, For(n), 0, false), times).0 <= Allowance(n)
  {
    ForRunsBounded(TimeoutFields(start, duration, For(n), 0, false), times);
  }

  /** `Repeat::Forever` never dies, and the counter counts every firing. */
  lemma {:induction false} ForeverNeverDies(t: TimeoutFields, times: seq<int>)
    requires t.repeat == Forever && !t.dead
    ensures !RunTimeout(t, times).1.dead
    ensures RunTimeout(t, times).1.counter == t.counter + RunTimeout(t, times).0
    decreases |times|
  {
    if times != [] {
      ForeverNeverDies(OnTimeoutStep(t, times[0]).2, times[1..]);
    }
  }

  /** `Repeat::For(n)` does not restart its timer: once it has fired and is
      still alive, it fires again on the very next call, however soon. */
  lemma ForFiresBackToBack(t: TimeoutFields, now: int, next: int)
    requires t.repeat.For? && OnTimeoutStep(t, now).1 && !OnTimeoutStep(t, now).2.dead
    requires now <= next
    ensures OnTimeoutStep(OnTimeoutStep(t, now).2, next).1
  {
  }

  /** `Repeat::Forever` restarts its timer: after a firing it is quiet until
      a full duration has passed again. */
  lemma ForeverWaits(t: TimeoutFields, now: int, next: int)
    requires t.repeat == Forever && OnTimeoutStep(t, now).1
    requires now <= next < now + t.duration
    ensures !OnTimeoutStep(OnTimeoutStep(t, now).2, next).1
  {
  }
}
