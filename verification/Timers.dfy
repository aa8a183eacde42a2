/**
 The timer scheduler: when a timer is due, how often it can run, and which timer
 one pass of the manager executes. Ticks are 32-bit numbers.
 */
module Timers {
  import opened Bits
  import opened Sequences

  /** Both the states of a timer and the answers of a query. */
  datatype TimerState = Wait | Run | Remove | Suspend

  datatype Timer = Timer(state: TimerState, interval: nat, last: nat)

  /** The comparison of the source: the sum wraps around. */
  predicate Due(t: Timer, tick: nat) {
    (t.last + t.interval) % UINT_RANGE < tick
  }

  function QueryVerdict(t: Timer, tick: nat): TimerState {
    match t.state
    case Wait => if Due(t, tick) then Run else Wait
    case _ => t.state
  }

  /** The timer after a query; a forced run does not restart the interval. */
  function Queried(t: Timer, tick: nat): Timer {
    match t.state
    case Wait => if Due(t, tick) then t.(last := tick) else t
    case Run => t.(state := Wait)
    case _ => t
  }

  /** A timer is due when more than the interval has passed, unless the sum leaves 32 bits: then it always is. */
  lemma DueIsElapsed(t: Timer, tick: nat)
    requires t.last <= tick < UINT_RANGE && t.interval < UINT_RANGE
    ensures (Due(t, tick) <==> tick - t.last > t.interval) <==> t.last + t.interval < UINT_RANGE
    ensures t.last + t.interval >= UINT_RANGE ==> Due(t, tick)
  {
  }

  // ----- One timer, any sequence of queries and state changes -----

  datatype Event = Query(tick: nat) | Change(state: TimerState)

  function After(t: Timer, e: Event): Timer {
    match e
    case Query(tick) => Queried(t, tick)
    case Change(state) => t.(state := state)
  }

  /** How often the timer is executed: once for each query that answers Run. */
  function Executions(t: Timer, events: seq<Event>): nat
    decreases events
  {
    if events == [] then 0
    else
      var now := if events[0].Query? && QueryVerdict(t, events[0].tick).Run? then 1 else 0;
      now + Executions(After(t, events[0]), events[1..])
  }

  /** Executions because the interval has passed. */
  function DueExecutions(t: Timer, events: seq<Event>): nat
    decreases events
  {
    if events == [] then 0
    else
      var now := if events[0].Query? && t.state.Wait? && Due(t, events[0].tick) then 1 else 0;
      now + DueExecutions(After(t, events[0]), events[1..])
  }

  function Pending(t: Timer): nat {
    if t.state.Run? then 1 else 0
  }

  /** The requests to run the timer at once. */
  function ForcedRequests(events: seq<Event>): nat {
    if events == [] then 0
    else (if events[0] == Change(Run) then 1 else 0) + ForcedRequests(events[1..])
  }

  /** An execution is due or answers a request; requests that come together are answered once. */
  lemma {:induction false} ForcedOrDue(t: Timer, events: seq<Event>)
    ensures Executions(t, events) <= DueExecutions(t, events) + Pending(t) + ForcedRequests(events)
    decreases events
  {
    if events != [] {
      ForcedOrDue(After(t, events[0]), events[1..]);
    }
  }

  /** Every query happens within the window. */
  ghost predicate Within(events: seq<Event>, from: nat, to: nat) {
    forall i :: 0 <= i < |events| && events[i].Query? ==> from <= events[i].tick <= to
  }

  /** The length of `d` gaps. */
  function Span(d: nat, gap: nat): nat {
    if d == 0 then 0 else gap + Span(d - 1, gap)
  }

  lemma {:induction false} SpanIsProduct(d: nat, gap: nat)
    ensures Span(d, gap) == d * gap
  {
    if d > 0 {
      SpanIsProduct(d - 1, gap);
      assert d * gap == (d - 1) * gap + gap;
    }
  }

  /** Each due execution moves the last execution time on by more than the interval. */
  lemma {:induction false} DueAdvances(t: Timer, events: seq<Event>, from: nat, to: nat)
    requires Within(events, from, to) && t.last <= to && to + t.interval < UINT_RANGE
    ensures Span(DueExecutions(t, events), t.interval + 1) <= to - t.last
    decreases events
  {
    if events != [] {
      var n := After(t, events[0]);
      assert Within(events[1..], from, to);
      DueAdvances(n, events[1..], from, to);
    }
  }

  lemma {:induction false} DueInWindow(t: Timer, events: seq<Event>, from: nat, to: nat)
    requires Within(events, from, to) && from <= to && t.last <= to && to + t.interval < UINT_RANGE
    ensures DueExecutions(t, events) > 0 ==> Span(DueExecutions(t, events) - 1, t.interval + 1) <= to - from
    decreases events
  {
    if events != [] {
      var n := After(t, events[0]);
      assert Within(events[1..], from, to);
      if events[0].Query? && t.state.Wait? && Due(t, events[0].tick) {
        DueAdvances(n, events[1..], from, to);
      } else {
        DueInWindow(n, events[1..], from, to);
      }
    }
  }

  lemma QuotientBound(q: nat, d: nat, n: nat)
    requires d > 0 && Span(q, d) <= n
    ensures q <= n / d
  {
    SpanIsProduct(q, d);
    var r := n / d;
    assert n < r * d + d;
    if q > r {
      MulGap(r, q, d);
    }
  }

  /**
   In a window of length L, with no wrap-around in reach, a timer executes at
   most 1 + floor(L / (interval + 1)) times, plus once for a run forced at the
   start and once for each forced within the window.
   */
  lemma RateBound(t: Timer, events: seq<Event>, from: nat, to: nat)
    requires Within(events, from, to) && from <= to && t.last <= to && to + t.interval < UINT_RANGE
    ensures Executions(t, events)
         <= 1 + (to - from) / (t.interval + 1) + Pending(t) + ForcedRequests(events)
  {
    ForcedOrDue(t, events);
    DueInWindow(t, events, from, to);
    var d := DueExecutions(t, events);
    QuotientBound(if d > 0 then d - 1 else 0, t.interval + 1, to - from);
  }

  // ----- One pass of the manager -----

  /** What a pass did; `Undefined` when the iterator is moved past the end. */
  datatype Outcome = Idle | Ran(index: nat) | Undefined

  datatype Pass = Pass(outcome: Outcome, timers: seq<Timer>)

  /**
   The pass over the timers from position `o` on, in the order of their ids;
   `front` is what is left of those before it, `ticks[o]` the clock when timer
   `o` is queried. Erasing a timer already moves the iterator to the next one,
   and the loop then moves it once more.
   */
  function PassFrom(front: seq<Timer>, ts: seq<Timer>, ticks: seq<nat>, o: nat): Pass
    requires o <= |ts| == |ticks|
    decreases |ts| - o
  {
    if o == |ts| then Pass(Idle, front)
    else
      match QueryVerdict(ts[o], ticks[o])
      case Run => Pass(Ran(o), front + ([Queried(ts[o], ticks[o])] + ts[o + 1..]))
      case Remove =>
        if o + 1 == |ts| then Pass(Undefined, []) else PassFrom(front + [ts[o + 1]], ts, ticks, o + 2)
      case _ => PassFrom(front + [Queried(ts[o], ticks[o])], ts, ticks, o + 1)
  }

  /** The timer is forced to run, or waits and its time has come: read off its fields. */
  predicate Runnable(t: Timer, tick: nat) {
    t.state == Run || (t.state == Wait && (t.last + t.interval) % UINT_RANGE < tick)
  }

  /** A timer that was executed waits again; only one that was due counts its interval from now. */
  function Executed(t: Timer, tick: nat): Timer {
    Timer(Wait, t.interval, if t.state == Run then t.last else tick)
  }

  /** A query answers run exactly for such a timer, and does that to it; any other is left as it is. */
  lemma QueryIsExact(t: Timer, tick: nat)
    ensures QueryVerdict(t, tick) == (if Runnable(t, tick) then Run else t.state)
    ensures Queried(t, tick) == if Runnable(t, tick) then Executed(t, tick) else t
  {
  }

  /** `p` is the first timer that is due or forced; the number of timers when there is none. */
  ghost predicate FirstRunnable(ts: seq<Timer>, ticks: seq<nat>, o: nat, p: nat)
    requires |ts| == |ticks|
  {
    && o <= p <= |ts|
    && (forall i :: o <= i < p ==> !Runnable(ts[i], ticks[i]))
    && (p < |ts| ==> Runnable(ts[p], ticks[p]))
  }

  /** What a pass should do: execute timer `p` and change nothing else. */
  ghost predicate ExecutesOnly(pass: Pass, front: seq<Timer>, ts: seq<Timer>, ticks: seq<nat>, o: nat, p: nat)
    requires o <= p <= |ts| == |ticks|
  {
    if p == |ts| then pass == Pass(Idle, front + ts[o..])
    else pass == Pass(Ran(p), front + ts[o..][p - o := Executed(ts[p], ticks[p])])
  }

  /** A pass that meets no timer marked for removal executes the due or forced timer with the lowest id only. */
  lemma {:induction false} PassExecutesFirst(front: seq<Timer>, ts: seq<Timer>, ticks: seq<nat>, o: nat, p: nat)
    requires |ts| == |ticks| && FirstRunnable(ts, ticks, o, p)
    requires forall i :: o <= i < p ==> !ts[i].state.Remove?
    ensures ExecutesOnly(PassFrom(front, ts, ticks, o), front, ts, ticks, o, p)
    decreases |ts| - o
  {
    if o < p {
      PassExecutesFirst(front + [ts[o]], ts, ticks, o + 1, p);
      assert Queried(ts[o], ticks[o]) == ts[o];
      Associative(front, [ts[o]], ts[o + 1..]);
      assert ts[o..] == [ts[o]] + ts[o + 1..];
      if p < |ts| {
        var x := Queried(ts[p], ticks[p]);
        Associative(front, [ts[o]], ts[o + 1..][p - o - 1 := x]);
        assert ts[o..][p - o := x] == [ts[o]] + ts[o + 1..][p - o - 1 := x];
      }
    } else if o < |ts| {
      assert ts[o..][0 := Queried(ts[o], ticks[o])] == [Queried(ts[o], ticks[o])] + ts[o + 1..];
    }
  }

  /** How many timers directly before position `p`, from `o` on, are marked for removal. */
  ghost function MarkedBefore(ts: seq<Timer>, o: nat, p: nat): (n: nat)
    requires o <= p <= |ts|
    ensures n <= p - o
    decreases p
  {
    if o == p || !ts[p - 1].state.Remove? then 0 else 1 + MarkedBefore(ts, o, p - 1)
  }

  lemma {:induction false} MarkedFrom(ts: seq<Timer>, o: nat, p: nat)
    requires o < p <= |ts|
    ensures MarkedBefore(ts, o, p) == MarkedBefore(ts, o + 1, p)
      + (if MarkedBefore(ts, o + 1, p) == p - o - 1 && ts[o].state.Remove? then 1 else 0)
    decreases p
  {
    if o + 1 < p {
      MarkedFrom(ts, o, p - 1);
    }
  }

  /** A pass executes no timer before the position it starts from. */
  lemma {:induction false} SkippedNotExecuted(front: seq<Timer>, ts: seq<Timer>, ticks: seq<nat>, o: nat)
    requires o <= |ts| == |ticks|
    ensures PassFrom(front, ts, ticks, o).outcome.Ran? ==> PassFrom(front, ts, ticks, o).outcome.index >= o
    decreases |ts| - o
  {
    if o < |ts| {
      if QueryVerdict(ts[o], ticks[o]).Remove? && o + 1 < |ts| {
        SkippedNotExecuted(front + [ts[o + 1]], ts, ticks, o + 2);
      } else {
        SkippedNotExecuted(front + [Queried(ts[o], ticks[o])], ts, ticks, o + 1);
      }
    }
  }

  /**
   A pass executes the first runnable timer, or is idle when there is none,
   exactly when the timers marked for removal directly before it are even in
   number: each one that is erased makes the loop skip the next timer, or run
   past the end.
   */
  lemma {:induction false} RemovalsSkip(front: seq<Timer>, ts: seq<Timer>, ticks: seq<nat>, o: nat, p: nat)
    requires |ts| == |ticks| && FirstRunnable(ts, ticks, o, p)
    ensures PassFrom(front, ts, ticks, o).outcome == (if p == |ts| then Idle else Ran(p))
       <==> MarkedBefore(ts, o, p) % 2 == 0
    decreases |ts| - o
  {
    if o < p {
      MarkedFrom(ts, o, p);
      if !ts[o].state.Remove? {
        RemovalsSkip(front + [Queried(ts[o], ticks[o])], ts, ticks, o + 1, p);
      } else if o + 1 < p {
        MarkedFrom(ts, o + 1, p);
        RemovalsSkip(front + [ts[o + 1]], ts, ticks, o + 2, p);
      } else if p < |ts| {
        SkippedNotExecuted(front + [ts[p]], ts, ticks, p + 1);
      }
    }
  }

  /** Passes that fail: a due timer behind a removed one is not executed, and a removed timer at the end is fatal. */
  lemma RemovalMisses(t: Timer, due: Timer, tick: nat)
    requires t.state.Remove? && due.state.Wait? && Due(due, tick)
    ensures Runnable(due, tick)
    ensures PassFrom([], [t, due], [tick, tick], 0) == Pass(Idle, [due])
    ensures PassFrom([], [due.(state := Wait), t], [0, tick], 0).outcome == Undefined
  {
  }

  /** The timers that are not marked for removal, in order. */
  function Unmarked(ts: seq<Timer>): seq<Timer> {
    if ts == [] then []
    else (if ts[0].state.Remove? then [] else [ts[0]]) + Unmarked(ts[1..])
  }

  lemma {:induction false} UnmarkedAppend(a: seq<Timer>, b: seq<Timer>)
    ensures Unmarked(a + b) == Unmarked(a) + Unmarked(b)
  {
    if a == [] {
      assert a + b == b;
    } else {
      var first := if a[0].state.Remove? then [] else [a[0]];
      assert (a + b)[0] == a[0] && (a + b)[1..] == a[1..] + b;
      UnmarkedAppend(a[1..], b);
      Associative(first, Unmarked(a[1..]), Unmarked(b));
    }
  }

  lemma UnmarkedOne(front: seq<Timer>, t: Timer)
    ensures Unmarked(front + [t]) == Unmarked(front) + if t.state.Remove? then [] else [t]
  {
    UnmarkedAppend(front, [t]);
    assert Unmarked([t]) == (if t.state.Remove? then [] else [t]) + Unmarked([]);
  }

  /** A pass that ends idle loses no timer but those marked for removal, and changes none. */
  lemma {:induction false} IdleLosesOnlyMarked(front: seq<Timer>, ts: seq<Timer>, ticks: seq<nat>, o: nat)
    requires o <= |ts| == |ticks| && PassFrom(front, ts, ticks, o).outcome.Idle?
    ensures Unmarked(PassFrom(front, ts, ticks, o).timers) == Unmarked(front) + Unmarked(ts[o..])
    decreases |ts| - o
  {
    if o < |ts| {
      QueryIsExact(ts[o], ticks[o]);
      if ts[o].state.Remove? {
        IdleLosesOnlyMarked(front + [ts[o + 1]], ts, ticks, o + 2);
        UnmarkedOne(front, ts[o + 1]);
        assert ts[o..][1..] == ts[o + 1..] && ts[o + 1..][1..] == ts[o + 2..];
      } else {
        IdleLosesOnlyMarked(front + [ts[o]], ts, ticks, o + 1);
        UnmarkedOne(front, ts[o]);
        assert ts[o..][1..] == ts[o + 1..];
      }
    }
  }

  // ----- What the manager does in turn -----

  /** `ticks[i]` is the clock when a pass queries timer `i`. */
  datatype Turn = Scan(ticks: seq<nat>) | Alter(timer: nat, state: TimerState) | Create(interval: nat)

  /** No timer is removed; changing a timer that is not in the map does nothing. */
  predicate Allowed(ts: seq<Timer>, turn: Turn) {
    match turn
    case Scan(ticks) => |ticks| == |ts|
    case Alter(_, state) => !state.Remove?
    case Create(_) => true
  }

  function Taken(ts: seq<Timer>, turn: Turn): seq<Timer>
    requires Allowed(ts, turn)
  {
    match turn
    case Scan(ticks) => PassFrom([], ts, ticks, 0).timers
    case Alter(i, state) => if i < |ts| then ts[i := After(ts[i], Change(state))] else ts
    case Create(interval) => ts + [Timer(Wait, interval, 0)]
  }

  // ----- The objects -----

  class CTimer {
    const interval: nat
    var lastExcuteTime: nat
    var state: TimerState

    ghost function Value(): Timer
      reads this
    {
      Timer(state, interval, lastExcuteTime)
    }

    constructor (interval: nat)
      ensures Value() == Timer(Wait, interval, 0)
    {
      this.interval := interval;
      lastExcuteTime, state := 0, Wait;
    }

    method ChangeTimerState(s: TimerState)
      modifies this
      ensures Value() == After(old(Value()), Change(s))
    {
      state := s;
    }

    method QueryExcuteTimer(tick: nat) returns (verdict: TimerState)
      modifies this
      ensures verdict == QueryVerdict(old(Value()), tick)
      ensures Value() == Queried(old(Value()), tick)
      ensures verdict != Run ==> unchanged(this)
    {
      match state {
        case Remove => return Remove;
        case Suspend => return Suspend;
        case Wait =>
          if (lastExcuteTime + interval) % UINT_RANGE < tick {
            lastExcuteTime := tick;
            return Run;
          }
          return Wait;
        case Run =>
          state := Wait;
          return Run;
      }
    }
  }

  /** The timers have these values, in the order of the map. */
  ghost predicate Show(timers: seq<CTimer>, values: seq<Timer>)
    reads timers
  {
    && |timers| == |values|
    && forall i :: 0 <= i < |timers| ==> timers[i].Value() == values[i]
  }

  /** The timers from position `o` on have these values. */
  ghost predicate ShowFrom(all: seq<CTimer>, was: seq<Timer>, o: nat)
    reads all
  {
    |all| == |was| && forall i :: o <= i < |all| ==> all[i].Value() == was[i]
  }

  /** `kept` is some of the timers in front of position `o`, each once. */
  ghost predicate KeptOf(kept: seq<CTimer>, all: seq<CTimer>, o: nat) {
    o <= |all| && Distinct(kept) && forall t :: t in kept ==> t in all[..o]
  }

  /** The timer at `p` is kept too; between `o` and `p` there is at most a removed one. */
  lemma KeepOne(kept: seq<CTimer>, front: seq<Timer>, all: seq<CTimer>, was: seq<Timer>, o: nat, p: nat)
    requires Distinct(all) && KeptOf(kept, all, o) && o <= p < |all|
    requires Show(kept, front) && ShowFrom(all, was, o)
    ensures KeptOf(kept + [all[p]], all, p + 1)
    ensures Show(kept + [all[p]], front + [was[p]])
  {
    DistinctStretch(kept, all, o, p, p + 1);
    assert all[p..p + 1] == [all[p]];
  }

  /** The timer at `o` was executed and now has another value; it and all behind it are kept. */
  lemma KeepRest(kept: seq<CTimer>, front: seq<Timer>, all: seq<CTimer>, was: seq<Timer>, o: nat)
    requires Distinct(all) && KeptOf(kept, all, o) && o < |all|
    requires Show(kept, front) && ShowFrom(all, was, o + 1)
    ensures Distinct(kept + all[o..]) && forall t :: t in kept + all[o..] ==> t in all
    ensures Show(kept + all[o..], front + ([all[o].Value()] + was[o + 1..]))
  {
    DistinctStretch(kept, all, o, o, |all|);
    assert all[o..|all|] == all[o..] && all[..|all|] == all;
  }

  class TimerManager {
    var timers: seq<CTimer>   // the map, in the order of its keys

    constructor ()
      ensures timers == [] && Distinct(timers)
    {
      timers := [];
    }

    /** Ids are drawn in increasing order, so a new timer comes last. In all methods `was` are the values before. */
    method CreateTimer(interval: nat, ghost was: seq<Timer>)
      requires Distinct(timers) && Show(timers, was)
      modifies this
      ensures Distinct(timers) && Show(timers, Taken(was, Create(interval)))
      ensures |timers| == |old(timers)| + 1 && timers[..|old(timers)|] == old(timers)
      ensures fresh(timers[|old(timers)|]) && timers[|old(timers)|].Value() == Timer(Wait, interval, 0)
    {
      var t := new CTimer(interval);
      timers := timers + [t];
    }

    /** A timer that is not in the map is not changed. */
    method ChangeTimerState(i: nat, s: TimerState, ghost was: seq<Timer>) returns (found: bool)
      requires Distinct(timers) && Show(timers, was)
      modifies if i < |timers| then {timers[i]} else {}
      ensures found <==> i < |timers|
      ensures found ==> Show(timers, was[i := Timer(s, was[i].interval, was[i].last)])
      ensures !s.Remove? ==> Show(timers, Taken(was, Alter(i, s)))
    {
      if i >= |timers| {
        return false;
      }
      timers[i].ChangeTimerState(s);
      return true;
    }

    method ExcuteTimerTask(ticks: seq<nat>, ghost was: seq<Timer>) returns (outcome: Outcome)
      requires Distinct(timers) && |ticks| == |timers| && Show(timers, was)
      modifies this, timers
      ensures outcome == PassFrom([], was, ticks, 0).outcome
      ensures outcome != Undefined ==>
        && Show(timers, Taken(was, Scan(ticks)))
        && Distinct(timers) && forall t :: t in timers ==> t in old(timers)
    {
      ghost var whole := PassFrom([], was, ticks, 0);
      var all := timers;
      var o, kept := 0, [];                // the position in the map, and what is left of the timers in front of it
      ghost var front: seq<Timer> := [];   // their values
      while o < |all|
        invariant timers == all && KeptOf(kept, all, o) && Show(kept, front) && ShowFrom(all, was, o)
        invariant whole == PassFrom(front, was, ticks, o)
        decreases |all| - o
      {
        var t := all[o];
        assert t !in all[..o];
        var verdict := t.QueryExcuteTimer(ticks[o]);
        assert Show(kept, front) && ShowFrom(all, was, o + 1);
        if verdict == Run {
          KeepRest(kept, front, all, was, o);
          timers := kept + all[o..];
          return Ran(o);
        }
        if verdict == Remove {
          if o + 1 == |all| {
            return Undefined;
          }
          KeepOne(kept, front, all, was, o, o + 1);
          kept, front, o := kept + [all[o + 1]], front + [was[o + 1]], o + 2;
        } else {
          KeepOne(kept, front, all, was, o, o);
          kept, front, o := kept + [t], front + [was[o]], o + 1;
        }
      }
      timers := kept;
      return Idle;
    }
  }
}
