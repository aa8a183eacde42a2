/**
 How a call of `unRegisterThread` ends: when it returns, when it goes through
 NULL, and that the records of an unregistered task can then all be freed.
 */
module PoolUnregister {
  import opened Options
  import opened PoolTable
  import opened PoolProtocol
  import opened PoolGuarantees
  import opened PoolCalls

  // ----- A second call -----

  /** Two records of task 1 are registered, and two workers do this. */
  function PairOf(workers: seq<Worker>, queue: multiset<Record>, state: bool, done: set<TaskId>): State {
    State(1, map[], map[Record(1, 0) := state, Record(1, 1) := state], queue, workers,
          map[1 := [Some(Record(1, 0)), Some(Record(1, 1))]], None, map[1 := 2], {}, done)
  }

  lemma RegisteringFirst() returns (trace: seq<State>, schedule: seq<Action>)
    ensures Steps(trace, schedule) && Initial(trace[0])
    ensures trace[|schedule|]
         == State(1, map[1 := Registration(2, 1)], map[Record(1, 0) := true], multiset{Record(1, 0)}, [Idle, Idle],
                  map[], None, map[1 := 2], {}, {})
  {
    var s := State(0, map[], map[], multiset{}, [Idle, Idle], map[], None, map[], {}, {});
    var s1 := Apply(s, Register(2));
    trace, schedule := [s, s1, Apply(s1, Post(1))], [Register(2), Post(1)];
  }

  lemma RegisteringSecond(s: State) returns (trace: seq<State>, schedule: seq<Action>)
    requires s == State(1, map[1 := Registration(2, 1)], map[Record(1, 0) := true], multiset{Record(1, 0)},
                        [Idle, Idle], map[], None, map[1 := 2], {}, {})
    ensures Steps(trace, schedule) && trace[0] == s
    ensures trace[|schedule|] == PairOf([Idle, Idle], multiset{Record(1, 0), Record(1, 1)}, true, {})
  {
    var s1 := Apply(s, Post(1));
    var s2 := Apply(s1, Insert(1));
    assert s2.tasks[1] == [Some(Record(1, 0)), Some(Record(1, 1))];
    trace, schedule := [s, s1, s2], [Post(1), Insert(1)];
  }

  lemma StartingPair(s: State) returns (trace: seq<State>, schedule: seq<Action>)
    requires s == PairOf([Idle, Idle], multiset{Record(1, 0), Record(1, 1)}, true, {})
    ensures Steps(trace, schedule) && trace[0] == s
    ensures trace[|schedule|]
         == PairOf([Calling(Record(1, 0)), Idle], multiset{Record(1, 1)}, true, {}).(marking := Some(Marking(1, 0)))
  {
    var s1 := Apply(s, Take(0, Record(1, 0)));
    trace, schedule := [s, s1, Apply(s1, StartUnregister(1))], [Take(0, Record(1, 0)), StartUnregister(1)];
  }

  lemma MarkingPair(s: State) returns (trace: seq<State>, schedule: seq<Action>)
    requires s
      == PairOf([Calling(Record(1, 0)), Idle], multiset{Record(1, 1)}, true, {}).(marking := Some(Marking(1, 0)))
    ensures Steps(trace, schedule) && trace[0] == s
    ensures trace[|schedule|] == PairOf([Calling(Record(1, 0)), Idle], multiset{Record(1, 1)}, false, {1})
  {
    var s1 := Apply(s, Mark);
    var s2 := Apply(s1, Mark);
    trace, schedule := [s, s1, s2, Apply(s2, EndUnregister)], [Mark, Mark, EndUnregister];
  }

  lemma UnregisteringAgain(s: State) returns (trace: seq<State>, schedule: seq<Action>)
    requires s == PairOf([Calling(Record(1, 0)), Idle], multiset{Record(1, 1)}, false, {1})
    ensures Steps(trace, schedule) && trace[0] == s
    ensures var n := trace[|schedule|];
      && n.marking == Some(Marking(1, 0)) && n.done == {1}
      && 1 in n.tasks && n.tasks[1] == [None, Some(Record(1, 1))]
  {
    var s1 := Apply(s, Return(0));
    var slots := Cleared(s1.tasks[1], Record(1, 0));
    assert slots[1].Some?;
    var s2 := Apply(s1, Finish(0));
    assert s2.tasks[1] == slots;
    trace := [s, s1, s2, Apply(s2, StartUnregister(1))];
    schedule := [Return(0), Finish(0), StartUnregister(1)];
  }

  /**
   An execution that goes wrong: two records, one of them freed after the first
   call of `unRegisterThread`, the other still queued when the second call comes.
   */
  lemma SecondUnregisterMeetsNull() returns (trace: seq<State>, schedule: seq<Action>)
    ensures Execution(trace, schedule)
    ensures Enabled(trace[|schedule|], Mark) && !Safe(trace[|schedule|], Mark)
    ensures trace[|schedule|].done == {1} && trace[|schedule|].marking == Some(Marking(1, 0))
  {
    trace, schedule := RegisteringFirst();
    var next, more := RegisteringSecond(trace[|schedule|]);
    Joined(trace, schedule, next, more);
    trace, schedule := trace + next[1..], schedule + more;
    next, more := StartingPair(trace[|schedule|]);
    Joined(trace, schedule, next, more);
    trace, schedule := trace + next[1..], schedule + more;
    next, more := MarkingPair(trace[|schedule|]);
    Joined(trace, schedule, next, more);
    trace, schedule := trace + next[1..], schedule + more;
    next, more := UnregisteringAgain(trace[|schedule|]);
    Joined(trace, schedule, next, more);
    trace, schedule := trace + next[1..], schedule + more;
  }

  // ----- When a call returns -----

  /** An unregistration holds the mutex and has an empty slot in front of it. */
  ghost predicate Blocked(s: State) {
    s.marking.Some? && s.marking.value.task in s.tasks && !AllPresent(s.tasks[s.marking.value.task])
  }

  /** Nothing that the other threads do changes the map, and the loop does not get past the empty slot. */
  lemma StepKeepsBlocked(s: State, a: Action, n: State)
    requires Reached(s) && Blocked(s) && Leads(s, a, n)
    ensures Reached(n) && Blocked(n) && n.tasks == s.tasks
  {
    hide Reached, Tokens, Ids, Owners, Slots, Marks, Finishers, Freed;
    ReachedInv(s);
    ReachedStep(s, a, n);
  }

  lemma {:induction false} StaysBlocked(trace: seq<State>, schedule: seq<Action>, k: nat)
    requires Steps(trace, schedule) && k < |trace| && Reached(trace[0]) && Blocked(trace[0])
    ensures Reached(trace[k]) && Blocked(trace[k]) && trace[k].tasks == trace[0].tasks
  {
    if k > 0 {
      StaysBlocked(trace, schedule, k - 1);
      assert Leads(trace[k - 1], schedule[k - 1], trace[k]);
      StepKeepsBlocked(trace[k - 1], schedule[k - 1], trace[k]);
    }
  }

  /** The state can be followed by one in which nobody holds the mutex. */
  ghost predicate CanReturn(s: State) {
    exists trace: seq<State>, schedule: seq<Action> ::
      Steps(trace, schedule) && trace[0] == s && trace[|schedule|].marking.None?
  }

  /** How many slots are still to be marked. */
  function Unmarked(s: State): nat {
    if s.marking.Some? && s.marking.value.task in s.tasks
       && s.marking.value.next <= |s.tasks[s.marking.value.task]|
    then |s.tasks[s.marking.value.task]| - s.marking.value.next + 1
    else 0
  }

  lemma NextMark(s: State) returns (a: Action, n: State)
    requires Reached(s) && s.marking.Some? && !Blocked(s)
    ensures Leads(s, a, n) && Reached(n) && !Blocked(n) && Unmarked(n) < Unmarked(s)
    ensures n.tasks == s.tasks && n.workers == s.workers && s.done <= n.done
  {
    hide Reached, Tokens, Ids, Owners, Marks, Finishers, Freed;
    ReachedInv(s);
    a := if s.marking.value.next < |s.tasks[s.marking.value.task]| then Mark else EndUnregister;
    StepsAreSafe(s, a);
    n := Apply(s, a);
    ReachedStep(s, a, n);
  }

  lemma {:induction false} MarkRest(s: State) returns (trace: seq<State>, schedule: seq<Action>)
    requires Reached(s) && !Blocked(s)
    ensures Steps(trace, schedule) && trace[0] == s
    ensures var n := trace[|schedule|];
      Reached(n) && n.marking.None? && n.tasks == s.tasks && n.workers == s.workers && s.done <= n.done
    decreases Unmarked(s)
  {
    if s.marking.None? {
      trace, schedule := [s], [];
    } else {
      var a, n := NextMark(s);
      var next, more := MarkRest(n);
      Joined([s, n], [a], next, more);
      trace, schedule := [s, n] + next[1..], [a] + more;
    }
  }

  /** A thread that holds the mutex can give it back exactly if all slots of its task are filled. */
  lemma CanReturnUnlessBlocked(s: State)
    requires Reached(s)
    ensures CanReturn(s) <==> !Blocked(s)
  {
    if !Blocked(s) {
      var trace, schedule := MarkRest(s);
    } else if CanReturn(s) {
      var trace: seq<State>, schedule: seq<Action> :|
        Steps(trace, schedule) && trace[0] == s && trace[|schedule|].marking.None?;
      StaysBlocked(trace, schedule, |schedule|);
    }
  }

  /** A call for a mapped task can return exactly if none of the task's records is freed when it starts. */
  lemma UnregisterReturns(trace: seq<State>, schedule: seq<Action>, k: nat, t: TaskId)
    requires Execution(trace, schedule) && k < |trace| && Enabled(trace[k], StartUnregister(t))
    requires t in trace[k].tasks && t in trace[k].sizes
    ensures CanReturn(Apply(trace[k], StartUnregister(t)))
       <==> forall i :: 0 <= i < trace[k].sizes[t] ==> Record(t, i) in trace[k].active
  {
    hide Reached, CanReturn, Tokens, Ids, Marks, Finishers, Freed;
    var s, a := trace[k], StartUnregister(t);
    ReachedAt(trace, schedule, k);
    ReachedStep(s, a, Apply(s, a));
    CanReturnUnlessBlocked(Apply(s, a));
    ReachedInv(s);
  }

  // ----- An unregistered task can be freed -----

  /** A task has at least one record, and no more than there are workers. */
  lemma {:induction false} SizesFit(trace: seq<State>, schedule: seq<Action>, k: nat)
    requires Execution(trace, schedule) && k < |trace|
    ensures forall t :: t in trace[k].sizes ==> 0 < trace[k].sizes[t] <= |trace[k].workers|
  {
    if k > 0 {
      SizesFit(trace, schedule, k - 1);
      assert Leads(trace[k - 1], schedule[k - 1], trace[k]);
    }
  }

  /** How many steps a worker is from being idle. */
  function Distance(worker: Worker): nat {
    match worker
    case Idle => 0
    case Calling(_) => 2
    case _ => 1
  }

  /** What worker `w` does next. */
  function Next(worker: Worker, w: nat): Action
    requires !worker.Idle?
  {
    match worker
    case Calling(_) => Return(w)
    case Reposting(_) => Repost(w)
    case Finishing(_) => Finish(w)
  }

  lemma NextIsUseful(s: State, w: nat)
    requires w < |s.workers| && !s.workers[w].Idle? && s.workers[w].r in s.active && s.marking.None?
    ensures var a := Next(s.workers[w], w);
      && Enabled(s, a) && Safe(s, a) && Moved(s, a) == Some(s.workers[w].r)
      && var n := Apply(s, a);
         && n.marking.None? && |n.workers| == |s.workers|
         && Distance(n.workers[w]) < Distance(s.workers[w])
  {
  }

  /** A record of the task and where it is. */
  lemma FindRecord(s: State, t: TaskId) returns (r: Record, w: nat)
    requires Tokens(s.queue, s.workers, s.active.Keys) && Slots(s.tasks, s.sizes, s.active.Keys) && t in s.tasks
    ensures r.task == t && r in s.active
    ensures r in s.queue || (w < |s.workers| && Holds(s.workers[w], r))
  {
    var i: nat :| i < |s.tasks[t]| && s.tasks[t][i].Some?;
    r, w := Record(t, i), 0;
    if r !in s.queue {
      w :| w < |s.workers| && Holds(s.workers[w], r);
    }
  }

  /** A step of a worker brings a record of the task closer to its end, or worker 0 closer to being idle. */
  lemma UsefulAction(s: State, t: TaskId) returns (a: Action)
    requires Tokens(s.queue, s.workers, s.active.Keys) && Slots(s.tasks, s.sizes, s.active.Keys)
    requires t in s.tasks && s.marking.None? && |s.workers| > 0
    ensures Enabled(s, a) && Safe(s, a)
    ensures var n := Apply(s, a);
      && n.marking.None? && |n.workers| == |s.workers|
      && (Concerns(s, a, t) || Distance(n.workers[0]) < Distance(s.workers[0]))
  {
    if !s.workers[0].Idle? {
      assert Holds(s.workers[0], s.workers[0].r);
      a := Next(s.workers[0], 0);
      NextIsUseful(s, 0);
    } else {
      var r, w := FindRecord(s, t);
      if r in s.queue {
        a := Take(0, r);
      } else {
        a := Next(s.workers[w], w);
        NextIsUseful(s, w);
      }
    }
  }

  /** The weight of the task's records. */
  function Left(s: State, t: TaskId): nat {
    if t in s.sizes then TaskWeight(s, t, s.sizes[t]) else 0
  }

  lemma UsefulStep(s: State, t: TaskId) returns (a: Action, n: State)
    requires Reached(s) && t in s.done && t in s.tasks && s.marking.None? && |s.workers| > 0
    ensures Leads(s, a, n) && Reached(n) && t in n.done && n.marking.None? && |n.workers| == |s.workers|
    ensures Left(n, t) < Left(s, t)
         || (Left(n, t) == Left(s, t) && Distance(n.workers[0]) < Distance(s.workers[0]))
  {
    ReachedInv(s);
    a := UsefulAction(s, t);
    n := Apply(s, a);
    ReachedStep(s, a, n);
    StepDrains(s, a, t);
  }

  lemma {:induction false} FreeAll(s: State, t: TaskId) returns (trace: seq<State>, schedule: seq<Action>)
    requires Reached(s) && t in s.done && s.marking.None? && |s.workers| > 0
    ensures Steps(trace, schedule) && trace[0] == s && t !in trace[|schedule|].tasks
    decreases Left(s, t), Distance(s.workers[0])
  {
    if t !in s.tasks {
      trace, schedule := [s], [];
    } else {
      var a, n := UsefulStep(s, t);
      var next, more := FreeAll(n, t);
      Joined([s, n], [a], next, more);
      trace, schedule := [s, n] + next[1..], [a] + more;
    }
  }

  /** The state can be followed by one in which the task's entry is erased. */
  ghost predicate CanBeFreed(s: State, t: TaskId) {
    exists trace: seq<State>, schedule: seq<Action> ::
      Steps(trace, schedule) && trace[0] == s && t !in trace[|schedule|].tasks
  }

  lemma FreedUnlessBlocked(s: State, t: TaskId)
    requires Reached(s) && t in s.done && t in s.tasks && |s.workers| > 0 && !Blocked(s)
    ensures CanBeFreed(s, t)
  {
    var first, rest := MarkRest(s);
    var next, more := FreeAll(first[|rest|], t);
    Joined(first, rest, next, more);
  }

  /**
   After `unRegisterThread` has returned true for a task, its records can all be
   freed and its entry be erased from every state that is reached, exactly unless
   the entry is still there and another call holds the mutex in front of a NULL.
   */
  lemma UnregisteredTaskCanBeFreed(trace: seq<State>, schedule: seq<Action>, k: nat, t: TaskId)
    requires Execution(trace, schedule) && k < |trace| && t in trace[k].done
    ensures CanBeFreed(trace[k], t) <==> t !in trace[k].tasks || !Blocked(trace[k])
  {
    var s := trace[k];
    ReachedAt(trace, schedule, k);
    InvHolds(trace, schedule, k);
    SizesFit(trace, schedule, k);
    if t !in s.tasks {
      assert Steps([s], []) && [s][0] == s;
    } else if !Blocked(s) {
      FreedUnlessBlocked(s, t);
    } else if CanBeFreed(s, t) {
      var after: seq<State>, steps: seq<Action> :|
        Steps(after, steps) && after[0] == s && t !in after[|steps|].tasks;
      StaysBlocked(after, steps, |steps|);
    }
  }
}
