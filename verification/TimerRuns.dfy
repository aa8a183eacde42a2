/**
 Runs of the timer manager: passes, changes of state and new timers in any
 order. What a run does to one timer is a sequence of events for it, and the
 passes that execute it are its executions.
 */
module TimerRuns {
  import opened Bits
  import opened Timers

  predicate Executes(ts: seq<Timer>, turn: Turn, i: nat)
    requires Allowed(ts, turn)
  {
    turn.Scan? && PassFrom([], ts, turn.ticks, 0).outcome == Ran(i)
  }

  /** The first timer that is due or forced; the number of timers when there is none. */
  function FirstOf(ts: seq<Timer>, ticks: seq<nat>, o: nat): (p: nat)
    requires o <= |ts| == |ticks|
    ensures FirstRunnable(ts, ticks, o, p)
    decreases |ts| - o
  {
    if o == |ts| || Runnable(ts[o], ticks[o]) then o else FirstOf(ts, ticks, o + 1)
  }

  /** What a turn is for timer `i`: a pass queries the timers up to the first runnable one. */
  function Seen(ts: seq<Timer>, turn: Turn, i: nat): seq<Event>
    requires Allowed(ts, turn) && i < |ts|
  {
    match turn
    case Scan(ticks) => if i <= FirstOf(ts, ticks, 0) then [Query(ticks[i])] else []
    case Alter(j, state) => if i == j then [Change(state)] else []
    case Create(_) => []
  }

  ghost predicate NoneRemoved(ts: seq<Timer>) {
    forall i :: 0 <= i < |ts| ==> !ts[i].state.Remove?
  }

  /** A turn does to timer `i` what it is for that timer, and executes it exactly if its query answers Run. */
  lemma TurnIsSeen(ts: seq<Timer>, turn: Turn, i: nat)
    requires Allowed(ts, turn) && NoneRemoved(ts) && i < |ts|
    ensures NoneRemoved(Taken(ts, turn)) && |Taken(ts, turn)| >= |ts|
    ensures var events := Seen(ts, turn, i);
      && Taken(ts, turn)[i] == (if events == [] then ts[i] else After(ts[i], events[0]))
      && (Executes(ts, turn, i) <==>
          events != [] && events[0].Query? && QueryVerdict(ts[i], events[0].tick).Run?)
  {
    if turn.Scan? {
      PassExecutesFirst([], ts, turn.ticks, 0, FirstOf(ts, turn.ticks, 0));
      assert ts[0..] == ts;
    }
  }

  ghost predicate Feasible(ts: seq<Timer>, turns: seq<Turn>)
    decreases turns
  {
    turns != [] ==> Allowed(ts, turns[0]) && Feasible(Taken(ts, turns[0]), turns[1..])
  }

  /** The events of a run for timer `i`. */
  ghost function Projection(ts: seq<Timer>, turns: seq<Turn>, i: nat): seq<Event>
    requires Feasible(ts, turns) && NoneRemoved(ts) && i < |ts|
    decreases turns
  {
    if turns == [] then []
    else
      TurnIsSeen(ts, turns[0], i);
      Seen(ts, turns[0], i) + Projection(Taken(ts, turns[0]), turns[1..], i)
  }

  /** How many passes of a run execute timer `i`. */
  ghost function PassesExecuting(ts: seq<Timer>, turns: seq<Turn>, i: nat): nat
    requires Feasible(ts, turns)
    decreases turns
  {
    if turns == [] then 0
    else (if Executes(ts, turns[0], i) then 1 else 0) + PassesExecuting(Taken(ts, turns[0]), turns[1..], i)
  }

  lemma ExecutionsOf(t: Timer, e: Event, rest: seq<Event>)
    ensures Executions(t, [e] + rest)
         == (if e.Query? && QueryVerdict(t, e.tick).Run? then 1 else 0) + Executions(After(t, e), rest)
  {
    assert ([e] + rest)[1..] == rest;
  }

  /** Every query that answers Run is one execution by the manager, and there are no others. */
  lemma {:induction false} RunVerdictsAreExecuted(ts: seq<Timer>, turns: seq<Turn>, i: nat)
    requires Feasible(ts, turns) && NoneRemoved(ts) && i < |ts|
    ensures PassesExecuting(ts, turns, i) == Executions(ts[i], Projection(ts, turns, i))
    decreases turns
  {
    if turns != [] {
      TurnIsSeen(ts, turns[0], i);
      var n := Taken(ts, turns[0]);
      var events, rest := Seen(ts, turns[0], i), Projection(n, turns[1..], i);
      RunVerdictsAreExecuted(n, turns[1..], i);
      if events == [] {
        assert events + rest == rest;
      } else {
        assert events == [events[0]];
        ExecutionsOf(ts[i], events[0], rest);
      }
    }
  }

  /** The requests to run timer `i` at once. */
  function Requests(turns: seq<Turn>, i: nat): nat {
    if turns == [] then 0
    else (if turns[0] == Alter(i, TimerState.Run) then 1 else 0) + Requests(turns[1..], i)
  }

  /** Every pass queries timer `i`, if at all, within the window. */
  ghost predicate QueriedWithin(turns: seq<Turn>, i: nat, from: nat, to: nat) {
    forall k :: 0 <= k < |turns| && turns[k].Scan? && i < |turns[k].ticks| ==> from <= turns[k].ticks[i] <= to
  }

  lemma {:induction false} ProjectionFacts(ts: seq<Timer>, turns: seq<Turn>, i: nat, from: nat, to: nat)
    requires Feasible(ts, turns) && NoneRemoved(ts) && i < |ts| && QueriedWithin(turns, i, from, to)
    ensures Within(Projection(ts, turns, i), from, to)
    ensures ForcedRequests(Projection(ts, turns, i)) == Requests(turns, i)
    decreases turns
  {
    if turns != [] {
      TurnIsSeen(ts, turns[0], i);
      var n := Taken(ts, turns[0]);
      var events, rest := Seen(ts, turns[0], i), Projection(n, turns[1..], i);
      assert QueriedWithin(turns[1..], i, from, to);
      ProjectionFacts(n, turns[1..], i, from, to);
      if events == [] {
        assert events + rest == rest;
      } else {
        assert turns[0].Scan? ==> from <= turns[0].ticks[i] <= to;
        assert (events + rest)[1..] == rest;
      }
    }
  }

  /**
   In a window of length L, with no wrap-around in reach, the manager executes a
   timer at most 1 + floor(L / (interval + 1)) times, plus once for a run forced
   at the start and once for each forced within the window, whatever happens to
   the other timers.
   */
  lemma ManagerRateBound(ts: seq<Timer>, turns: seq<Turn>, i: nat, from: nat, to: nat)
    requires Feasible(ts, turns) && NoneRemoved(ts) && i < |ts| && QueriedWithin(turns, i, from, to)
    requires from <= to && ts[i].last <= to && to + ts[i].interval < UINT_RANGE
    ensures PassesExecuting(ts, turns, i)
         <= 1 + (to - from) / (ts[i].interval + 1) + Pending(ts[i]) + Requests(turns, i)
  {
    RunVerdictsAreExecuted(ts, turns, i);
    ProjectionFacts(ts, turns, i, from, to);
    RateBound(ts[i], Projection(ts, turns, i), from, to);
  }

  // ----- Requests to run at once -----

  /** The pass gets to timer `i`: none in front of it is due or forced. */
  ghost predicate Reaches(ts: seq<Timer>, turn: Turn, i: nat)
    requires Allowed(ts, turn) && i < |ts|
  {
    turn.Scan? && forall j :: 0 <= j < i ==> !Runnable(ts[j], turn.ticks[j])
  }

  ghost predicate NeverReached(ts: seq<Timer>, turns: seq<Turn>, i: nat)
    requires Feasible(ts, turns) && NoneRemoved(ts) && i < |ts|
    decreases turns
  {
    turns != [] ==>
      && !Reaches(ts, turns[0], i)
      && (TurnIsSeen(ts, turns[0], i); NeverReached(Taken(ts, turns[0]), turns[1..], i))
  }

  /** What one turn does to a timer that is forced to run. */
  lemma ForcedTurn(ts: seq<Timer>, turn: Turn, i: nat)
    requires Allowed(ts, turn) && NoneRemoved(ts) && i < |ts| && ts[i].state == TimerState.Run
    requires turn.Alter? ==> turn.timer != i
    ensures NoneRemoved(Taken(ts, turn)) && |Taken(ts, turn)| >= |ts|
    ensures Executes(ts, turn, i) <==> Reaches(ts, turn, i)
    ensures Taken(ts, turn)[i] == if Executes(ts, turn, i) then ts[i].(state := Wait) else ts[i]
  {
    TurnIsSeen(ts, turn, i);
    if turn.Scan? {
      var p := FirstOf(ts, turn.ticks, 0);
      PassExecutesFirst([], ts, turn.ticks, 0, p);
      assert ts[0..] == ts;
    }
  }

  lemma {:induction false} ForcedIsExecuted(ts: seq<Timer>, turns: seq<Turn>, i: nat)
    requires Feasible(ts, turns) && NoneRemoved(ts) && i < |ts| && ts[i].state == TimerState.Run
    requires forall k :: 0 <= k < |turns| && turns[k].Alter? ==> turns[k].timer != i
    ensures PassesExecuting(ts, turns, i) == 0 <==> NeverReached(ts, turns, i)
    decreases turns
  {
    if turns != [] {
      ForcedTurn(ts, turns[0], i);
      if !Reaches(ts, turns[0], i) {
        ForcedIsExecuted(Taken(ts, turns[0]), turns[1..], i);
      }
    }
  }

  /**
   A request to run a timer at once that is not revoked is answered: the timer
   is executed, exactly if some later pass reaches it. The first one that does
   executes it, sets it back to waiting and leaves its interval running.
   */
  lemma {:induction false} RequestIsAnswered(ts: seq<Timer>, turns: seq<Turn>, i: nat)
    requires NoneRemoved(ts) && i < |ts| && turns != [] && turns[0] == Alter(i, TimerState.Run)
    requires Feasible(ts, turns)
    requires forall k :: 0 < k < |turns| && turns[k].Alter? ==> turns[k].timer != i
    ensures PassesExecuting(ts, turns, i) == 0 <==> NeverReached(ts, turns, i)
  {
    TurnIsSeen(ts, turns[0], i);
    ForcedIsExecuted(Taken(ts, turns[0]), turns[1..], i);
  }
}
