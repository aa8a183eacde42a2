/**
 What the thread pool guarantees in every execution: no record is lost, shared,
 used after it is freed or freed twice, and an unregistered task drains.
 */
module PoolGuarantees {
  import opened Options
  import opened PoolTable
  import opened PoolProtocol

  lemma InitialInv(s: State)
    requires Initial(s)
    ensures Inv(s)
  {
  }

  lemma StepKeepsInv(s: State, a: Action)
    requires Inv(s) && Enabled(s, a) && Safe(s, a)
    ensures Inv(Apply(s, a))
  {
    match a
    case Register(concurrency) => RegisterKeeps(s, concurrency);
    case Post(t) => PostKeeps(s, t);
    case Insert(t) => InsertKeeps(s, t);
    case StartUnregister(t) => StartUnregisterKeeps(s, t);
    case Mark => MarkKeeps(s);
    case EndUnregister => EndUnregisterKeeps(s);
    case Take(w, r) => TakeKeeps(s, w, r);
    case Return(w) => ReturnKeeps(s, w);
    case Repost(w) => RepostKeeps(s, w);
    case Finish(w) => FinishKeeps(s, w);
  }

  lemma {:induction false} InvHolds(trace: seq<State>, schedule: seq<Action>, k: nat)
    requires Execution(trace, schedule) && k < |trace|
    ensures Inv(trace[k])
  {
    if k == 0 {
      InitialInv(trace[0]);
    } else {
      InvHolds(trace, schedule, k - 1);
      assert Leads(trace[k - 1], schedule[k - 1], trace[k]);
      StepKeepsInv(trace[k - 1], schedule[k - 1]);
    }
  }

  /** A state of some execution. */
  ghost predicate Reached(s: State) {
    exists trace: seq<State>, schedule: seq<Action> :: Execution(trace, schedule) && trace[|schedule|] == s
  }

  lemma InitialIsReached(s: State)
    requires Initial(s)
    ensures Reached(s)
  {
    var trace, schedule: seq<Action> := [s], [];
    assert Execution(trace, schedule) && trace[|schedule|] == s;
  }

  lemma ReachedInv(s: State)
    requires Reached(s)
    ensures Inv(s)
  {
    var trace: seq<State>, schedule: seq<Action> :| Execution(trace, schedule) && trace[|schedule|] == s;
    InvHolds(trace, schedule, |schedule|);
  }

  lemma ReachedStep(s: State, a: Action, n: State)
    requires Reached(s) && Leads(s, a, n)
    ensures Reached(n)
  {
    var trace: seq<State>, schedule: seq<Action> :| Execution(trace, schedule) && trace[|schedule|] == s;
    Extended(trace, schedule, a, n);
    assert Execution(trace + [n], schedule + [a]);
  }

  lemma ReachedAt(trace: seq<State>, schedule: seq<Action>, k: nat)
    requires Execution(trace, schedule) && k < |trace|
    ensures Reached(trace[k])
  {
    assert Steps(trace[..k + 1], schedule[..k]) by {
      forall i | 0 <= i < k ensures Leads(trace[..k + 1][i], schedule[..k][i], trace[..k + 1][i + 1]) {
        assert Leads(trace[i], schedule[i], trace[i + 1]);
      }
    }
    assert Execution(trace[..k + 1], schedule[..k]);
  }

  lemma ReachedSteps(trace: seq<State>, schedule: seq<Action>)
    requires Steps(trace, schedule) && Reached(trace[0])
    ensures Reached(trace[|schedule|])
  {
    var before: seq<State>, steps: seq<Action> :| Execution(before, steps) && before[|steps|] == trace[0];
    Joined(before, steps, trace, schedule);
    assert Execution(before + trace[1..], steps + schedule);
  }

  lemma FinishFindsTask(s: State, w: nat)
    requires Inv(s) && Enabled(s, Finish(w))
    ensures s.workers[w].r.task in s.tasks
  {
  }

  /**
   No step goes through a freed record, and nothing is freed twice. None goes
   through NULL either, except that `unRegisterThread` does so exactly at the
   slot of a freed record, which needs an earlier successful call for the task.
   */
  lemma NoUseAfterFree(trace: seq<State>, schedule: seq<Action>, k: nat, a: Action)
    requires Execution(trace, schedule) && k < |trace| && Enabled(trace[k], a)
    ensures var s := trace[k];
      && (Safe(s, a) <==> (a.Mark? ==> Record(s.marking.value.task, s.marking.value.next) in s.active))
      && (a.Mark? && s.marking.value.task !in s.done ==> Safe(s, a))
      && (a.Finish? ==> Safe(s, a) && s.workers[a.w].r !in s.freed)
      && (a.Finish? ==> Apply(s, a).freed == s.freed + {s.workers[a.w].r})
  {
    InvHolds(trace, schedule, k);
    StepsAreSafe(trace[k], a);
    if a.Finish? {
      FinishFindsTask(trace[k], a.w);
    }
  }

  /**
   The "task not found" return is unreachable, although records are posted
   before the map insertion and `taskState` is read without the mutex.
   */
  lemma TaskIsAlwaysFound(trace: seq<State>, schedule: seq<Action>, k: nat, w: nat)
    requires Execution(trace, schedule) && k < |trace| && Enabled(trace[k], Finish(w))
    ensures trace[k].workers[w].r.task in trace[k].tasks
  {
    InvHolds(trace, schedule, k);
    FinishFindsTask(trace[k], w);
  }

  ghost function Holders(workers: seq<Worker>, r: Record): set<nat> {
    set w: nat | w < |workers| && Holds(workers[w], r)
  }

  lemma TokenCount(queue: multiset<Record>, workers: seq<Worker>, live: set<Record>, r: Record)
    requires Tokens(queue, workers, live)
    ensures queue[r] + |Holders(workers, r)| == if r in live then 1 else 0
  {
    if Held(workers, r) {
      var w: nat :| w < |workers| && Holds(workers[w], r);
      assert Holders(workers, r) == {w};
    } else {
      assert Holders(workers, r) == {};
    }
  }

  /** An allocated record is either queued once or with exactly one worker; a freed one is nowhere. */
  lemma OneToken(trace: seq<State>, schedule: seq<Action>, k: nat, r: Record)
    requires Execution(trace, schedule) && k < |trace|
    ensures trace[k].queue[r] + |Holders(trace[k].workers, r)| == if r in trace[k].active then 1 else 0
    ensures r in trace[k].freed ==> r !in trace[k].active
  {
    InvHolds(trace, schedule, k);
    TokenCount(trace[k].queue, trace[k].workers, trace[k].active.Keys, r);
  }

  /** A mapped task has, slot by slot, a pointer to exactly its allocated records, and is mapped while it has one. */
  lemma SlotsPointToAllocated(trace: seq<State>, schedule: seq<Action>, k: nat, t: TaskId)
    requires Execution(trace, schedule) && k < |trace|
    requires t in trace[k].sizes && t !in trace[k].registering
    ensures t in trace[k].tasks <==> exists r :: r in trace[k].active && r.task == t
    ensures t in trace[k].tasks ==> |trace[k].tasks[t]| == trace[k].sizes[t]
    ensures t in trace[k].tasks ==>
      forall i :: 0 <= i < trace[k].sizes[t] ==>
        trace[k].tasks[t][i] == if Record(t, i) in trace[k].active then Some(Record(t, i)) else None
  {
    InvHolds(trace, schedule, k);
    var s := trace[k];
    if t in s.tasks {
      var i :| 0 <= i < |s.tasks[t]| && s.tasks[t][i].Some?;
      assert Record(t, i) in s.active;
    }
  }

  lemma {:induction false} InjectionBound(a: set<nat>, f: map<nat, nat>, n: nat)
    requires forall w :: w in a ==> w in f && f[w] < n
    requires forall v, w :: v in a && w in a && f[v] == f[w] ==> v == w
    ensures |a| <= n
  {
    if n == 0 {
      assert a == {};
    } else if exists w :: w in a && f[w] == n - 1 {
      var w :| w in a && f[w] == n - 1;
      InjectionBound(a - {w}, f, n - 1);
    } else {
      InjectionBound(a, f, n - 1);
    }
  }

  /** At most `concurrency` invocations of a task's function run at the same time. */
  lemma OverlapIsBounded(trace: seq<State>, schedule: seq<Action>, k: nat, t: TaskId)
    requires Execution(trace, schedule) && k < |trace| && t in trace[k].sizes
    ensures var s := trace[k];
      |set w: nat | w < |s.workers| && s.workers[w].Calling? && s.workers[w].r.task == t| <= s.sizes[t]
  {
    InvHolds(trace, schedule, k);
    var s := trace[k];
    var calling := set w: nat | w < |s.workers| && s.workers[w].Calling? && s.workers[w].r.task == t;
    var slot := map w | w in calling :: s.workers[w].r.slot;
    forall w | w in calling ensures slot[w] < s.sizes[t] {
      assert Holds(s.workers[w], s.workers[w].r);
    }
    forall v, w | v in calling && w in calling && slot[v] == slot[w] ensures v == w {
      assert Holds(s.workers[w], s.workers[v].r);
    }
    InjectionBound(calling, slot, s.sizes[t]);
  }

  // ----- After unRegisterThread has returned -----

  /** The number of steps a record of an unregistered task still takes. */
  function Weight(queue: multiset<Record>, workers: seq<Worker>, r: Record): nat {
    if r in queue then 3
    else if Reposting(r) in workers then 4
    else if Calling(r) in workers then 2
    else if Finishing(r) in workers then 1
    else 0
  }

  /** The record a worker's step is about. */
  function Moved(s: State, a: Action): Option<Record> {
    match a
    case Take(_, r) => Some(r)
    case Return(w) => if w < |s.workers| && !s.workers[w].Idle? then Some(s.workers[w].r) else None
    case Repost(w) => if w < |s.workers| && !s.workers[w].Idle? then Some(s.workers[w].r) else None
    case Finish(w) => if w < |s.workers| && !s.workers[w].Idle? then Some(s.workers[w].r) else None
    case _ => None
  }

  lemma HeldIfListed(workers: seq<Worker>, x: Worker)
    requires x in workers && !x.Idle?
    ensures Held(workers, x.r)
  {
  }

  /** Membership after worker `w` moves on, for a record that only `w` can hold. */
  lemma ListedAfter(workers: seq<Worker>, w: nat, n: Worker, x: Worker)
    requires Exclusive(workers) && w < |workers| && !x.Idle?
    requires workers[w].Idle? ==> n.Idle? || !Held(workers, n.r)
    requires !workers[w].Idle? && !n.Idle? ==> n.r == workers[w].r
    ensures x in workers[w := n] <==> x == n || (x in workers && !Holds(workers[w], x.r))
    ensures Holds(workers[w], x.r) ==> (x in workers <==> x == workers[w])
  {
    assert workers[w := n][w] == n;
    if x in workers {
      var v :| 0 <= v < |workers| && workers[v] == x;
      if v != w {
        assert workers[w := n][v] == x;
        assert !Holds(workers[w], workers[v].r);
      }
    }
    if x != n && x in workers[w := n] {
      var v :| 0 <= v < |workers| && workers[w := n][v] == x;
      assert v != w && workers[v] == x;
      assert !Holds(workers[w], workers[v].r);
    }
  }

  lemma ListedAfterAll(workers: seq<Worker>, w: nat, n: Worker)
    requires Exclusive(workers) && w < |workers|
    requires workers[w].Idle? ==> n.Idle? || !Held(workers, n.r)
    requires !workers[w].Idle? && !n.Idle? ==> n.r == workers[w].r
    ensures forall x: Worker :: !x.Idle? ==>
      (x in workers[w := n] <==> x == n || (x in workers && !Holds(workers[w], x.r)))
    ensures forall x: Worker :: !x.Idle? && Holds(workers[w], x.r) ==> (x in workers <==> x == workers[w])
  {
    forall x: Worker | !x.Idle?
      ensures x in workers[w := n] <==> x == n || (x in workers && !Holds(workers[w], x.r))
      ensures Holds(workers[w], x.r) ==> (x in workers <==> x == workers[w])
    {
      ListedAfter(workers, w, n, x);
    }
  }

  lemma TakeWeight(queue: multiset<Record>, workers: seq<Worker>, live: set<Record>, w: nat, r: Record, q: Record)
    requires Tokens(queue, workers, live) && w < |workers| && workers[w].Idle? && r in queue
    ensures Weight(queue - multiset{r}, workers[w := Calling(r)], q)
         == Weight(queue, workers, q) - if q == r then 1 else 0
    ensures Weight(queue, workers, r) == 3
  {
    ListedAfterAll(workers, w, Calling(r));
    if Reposting(r) in workers {
      HeldIfListed(workers, Reposting(r));
    }
  }

  lemma ReturnWeight(queue: multiset<Record>, workers: seq<Worker>, live: set<Record>, w: nat, q: Record)
    requires Tokens(queue, workers, live) && w < |workers| && workers[w].Calling?
    ensures var r := workers[w].r;
      && Weight(queue, workers[w := Finishing(r)], q) == Weight(queue, workers, q) - (if q == r then 1 else 0)
      && Weight(queue, workers, r) == 2
  {
    HeldIfListed(workers, workers[w]);
    ListedAfterAll(workers, w, Finishing(workers[w].r));
  }

  lemma IdleWeight(queue: multiset<Record>, workers: seq<Worker>, live: set<Record>, w: nat, q: Record)
    requires Tokens(queue, workers, live) && w < |workers| && (workers[w].Reposting? || workers[w].Finishing?)
    ensures var r, idle := workers[w].r, workers[w := Idle];
      && (workers[w].Reposting? ==>
           && Weight(queue + multiset{r}, idle, q) == Weight(queue, workers, q) - (if q == r then 1 else 0)
           && Weight(queue, workers, r) == 4)
      && (workers[w].Finishing? ==>
           && Weight(queue, idle, q) == Weight(queue, workers, q) - (if q == r then 1 else 0)
           && Weight(queue, workers, r) == 1)
  {
    HeldIfListed(workers, workers[w]);
    ListedAfterAll(workers, w, Idle);
  }

  /** What a step does to the weight of record `q`: its own steps each take one off. */
  ghost predicate Lightens(s: State, a: Action, q: Record)
    requires Enabled(s, a) && Safe(s, a)
  {
    var n := Apply(s, a);
    && Weight(n.queue, n.workers, q) == Weight(s.queue, s.workers, q) - (if Moved(s, a) == Some(q) then 1 else 0)
    && (Moved(s, a) == Some(q) ==> (a.Take? <==> Weight(s.queue, s.workers, q) == 3))
  }

  lemma ReturnLightens(s: State, w: nat, q: Record)
    requires Tokens(s.queue, s.workers, s.active.Keys) && Enabled(s, Return(w)) && Safe(s, Return(w))
    requires s.workers[w].r == q ==> !s.active[q]
    ensures Lightens(s, Return(w), q)
  {
    ReturnWeight(s.queue, s.workers, s.active.Keys, w, q);
    if s.active[s.workers[w].r] {
      ListedAfterAll(s.workers, w, Reposting(s.workers[w].r));
    }
  }

  lemma RepostLightens(s: State, w: nat, q: Record)
    requires Tokens(s.queue, s.workers, s.active.Keys) && Enabled(s, Repost(w)) && Safe(s, Repost(w))
    ensures Lightens(s, Repost(w), q)
  {
    IdleWeight(s.queue, s.workers, s.active.Keys, w, q);
  }

  lemma FinishLightens(s: State, w: nat, q: Record)
    requires Tokens(s.queue, s.workers, s.active.Keys) && Enabled(s, Finish(w)) && Safe(s, Finish(w))
    requires s.workers[w].r.task in s.tasks
    ensures Lightens(s, Finish(w), q)
  {
    IdleWeight(s.queue, s.workers, s.active.Keys, w, q);
  }

  lemma StepLightens(s: State, a: Action, q: Record)
    requires Tokens(s.queue, s.workers, s.active.Keys) && Enabled(s, a) && Safe(s, a)
    requires a.Post? ==> a.task != q.task
    requires a.Return? && s.workers[a.w].r == q ==> !s.active[q]
    requires a.Finish? ==> s.workers[a.w].r.task in s.tasks
    ensures Lightens(s, a, q)
  {
    match a
    case Take(w, r) => TakeWeight(s.queue, s.workers, s.active.Keys, w, r, q);
    case Return(w) => ReturnLightens(s, w, q);
    case Repost(w) => RepostLightens(s, w, q);
    case Finish(w) => FinishLightens(s, w, q);
    case _ =>
  }

  // ----- Totals over the records of a task -----

  /** Whether a record still has a start of `fn` ahead of it, once its task is unregistered. */
  function StartsLeft(s: State, r: Record): nat {
    if Weight(s.queue, s.workers, r) >= 3 then 1 else 0
  }

  /** The weights of the first `n` records of a task. */
  function TaskWeight(s: State, t: TaskId, n: nat): (total: nat)
    ensures total <= 4 * n
  {
    if n == 0 then 0 else TaskWeight(s, t, n - 1) + Weight(s.queue, s.workers, Record(t, n - 1))
  }

  function TaskStartsLeft(s: State, t: TaskId, n: nat): (total: nat)
    ensures total <= n
  {
    if n == 0 then 0 else TaskStartsLeft(s, t, n - 1) + StartsLeft(s, Record(t, n - 1))
  }

  /** From `s` to `n`, record `r` loses one weight when it moves and one start when that starts `fn`. */
  predicate Drains(s: State, n: State, r: Record, moved: Option<Record>, start: bool) {
    && Weight(n.queue, n.workers, r) == Weight(s.queue, s.workers, r) - (if moved == Some(r) then 1 else 0)
    && StartsLeft(n, r) == StartsLeft(s, r) - (if start && moved == Some(r) then 1 else 0)
  }

  lemma {:induction false} TotalsDrain(s: State, n: State, t: TaskId, c: nat, moved: Option<Record>, start: bool)
    requires moved.Some? ==> moved.value.task == t
    requires forall r: Record :: r.task == t ==> Drains(s, n, r, moved, start)
    ensures TaskWeight(n, t, c) == TaskWeight(s, t, c) - if moved.Some? && moved.value.slot < c then 1 else 0
    ensures TaskStartsLeft(n, t, c)
         == TaskStartsLeft(s, t, c) - if start && moved.Some? && moved.value.slot < c then 1 else 0
  {
    if c > 0 {
      TotalsDrain(s, n, t, c - 1, moved, start);
      assert Drains(s, n, Record(t, c - 1), moved, start);
    }
  }

  // ----- Counting steps in an execution -----

  /** How often the record starts `fn` from step `i` up to step `j`. */
  function Starts(schedule: seq<Action>, i: nat, j: nat, r: Record): nat
    requires i <= j <= |schedule|
  {
    if i == j then 0
    else Starts(schedule, i, j - 1, r) + (if schedule[j - 1].Take? && schedule[j - 1].r == r then 1 else 0)
  }

  function TaskStarts(schedule: seq<Action>, i: nat, j: nat, t: TaskId): nat
    requires i <= j <= |schedule|
  {
    if i == j then 0
    else TaskStarts(schedule, i, j - 1, t) + (if schedule[j - 1].Take? && schedule[j - 1].r.task == t then 1 else 0)
  }

  predicate Concerns(s: State, a: Action, t: TaskId) {
    Moved(s, a).Some? && Moved(s, a).value.task == t
  }

  /** How many steps concern a record of the task. */
  function TaskSteps(trace: seq<State>, schedule: seq<Action>, i: nat, j: nat, t: TaskId): nat
    requires i <= j <= |schedule| <= |trace|
  {
    if i == j then 0
    else TaskSteps(trace, schedule, i, j - 1, t) + (if Concerns(trace[j - 1], schedule[j - 1], t) then 1 else 0)
  }

  // ----- One step, and then every step, of an unregistered task -----

  lemma DrainIds(s: State, a: Action, t: TaskId)
    requires Ids(s.lastId, s.registering, s.sizes, s.tasks.Keys, s.done)
    requires Enabled(s, a) && Safe(s, a) && t in s.done
    ensures t in s.sizes
    ensures t in Apply(s, a).done && t in Apply(s, a).sizes && Apply(s, a).sizes[t] == s.sizes[t]
  {
  }

  lemma MovedIsOwned(s: State, a: Action, t: TaskId)
    requires Owners(s.registering, s.sizes, s.tasks.Keys, s.active.Keys) && Enabled(s, a) && Safe(s, a)
    requires Concerns(s, a, t)
    ensures t in s.sizes && Moved(s, a).value.slot < s.sizes[t]
  {
  }

  lemma DoneFacts(s: State, a: Action, r: Record)
    requires Inv(s) && Enabled(s, a) && Safe(s, a) && r.task in s.done
    ensures Tokens(s.queue, s.workers, s.active.Keys)
    ensures a.Post? ==> a.task != r.task
    ensures r in s.active ==> !s.active[r]
    ensures a.Finish? ==> s.workers[a.w].r.task in s.tasks
  {
  }

  lemma LightensDrains(s: State, a: Action, r: Record)
    requires Enabled(s, a) && Safe(s, a) && Lightens(s, a, r)
    ensures Drains(s, Apply(s, a), r, Moved(s, a), a.Take?)
  {
  }

  lemma DrainRecord(s: State, a: Action, r: Record)
    requires Inv(s) && Enabled(s, a) && Safe(s, a) && r.task in s.done
    ensures Drains(s, Apply(s, a), r, Moved(s, a), a.Take?)
  {
    DoneFacts(s, a, r);
    StepLightens(s, a, r);
    LightensDrains(s, a, r);
  }

  /** What one step does to a task that is already unregistered. */
  predicate TaskDrains(s: State, n: State, a: Action, t: TaskId, c: nat) {
    && TaskWeight(n, t, c) == TaskWeight(s, t, c) - (if Concerns(s, a, t) then 1 else 0)
    && TaskStartsLeft(n, t, c) == TaskStartsLeft(s, t, c) - (if a.Take? && a.r.task == t then 1 else 0)
  }

  lemma DrainTask(s: State, n: State, a: Action, t: TaskId, c: nat)
    requires forall r: Record :: r.task == t ==> Drains(s, n, r, Moved(s, a), a.Take?)
    requires Concerns(s, a, t) ==> Moved(s, a).value.slot < c
    ensures TaskDrains(s, n, a, t, c)
  {
    var moved := if Concerns(s, a, t) then Moved(s, a) else None;
    forall r: Record | r.task == t ensures Drains(s, n, r, moved, a.Take?) {
      assert Drains(s, n, r, Moved(s, a), a.Take?);
    }
    TotalsDrain(s, n, t, c, moved, a.Take?);
  }

  lemma StepDrains(s: State, a: Action, t: TaskId)
    requires Inv(s) && Enabled(s, a) && Safe(s, a) && t in s.done
    ensures var n := Apply(s, a);
      && t in s.sizes && t in n.done && t in n.sizes && n.sizes[t] == s.sizes[t]
      && TaskDrains(s, n, a, t, s.sizes[t])
      && forall r: Record :: r.task == t ==> Drains(s, n, r, Moved(s, a), a.Take?)
  {
    DrainIds(s, a, t);
    if Concerns(s, a, t) {
      MovedIsOwned(s, a, t);
    }
    forall r: Record | r.task == t ensures Drains(s, Apply(s, a), r, Moved(s, a), a.Take?) {
      DrainRecord(s, a, r);
    }
    DrainTask(s, Apply(s, a), a, t, s.sizes[t]);
  }

  lemma TraceStep(trace: seq<State>, schedule: seq<Action>, k: nat, t: TaskId)
    requires Execution(trace, schedule) && k < |schedule| && t in trace[k].done
    ensures t in trace[k].sizes && t in trace[k + 1].done
    ensures t in trace[k + 1].sizes && trace[k + 1].sizes[t] == trace[k].sizes[t]
    ensures TaskDrains(trace[k], trace[k + 1], schedule[k], t, trace[k].sizes[t])
    ensures forall r: Record :: r.task == t ==>
      Drains(trace[k], trace[k + 1], r, Moved(trace[k], schedule[k]), schedule[k].Take?)
  {
    InvHolds(trace, schedule, k);
    assert Leads(trace[k], schedule[k], trace[k + 1]);
    StepDrains(trace[k], schedule[k], t);
  }

  lemma {:induction false} StaysUnregistered(trace: seq<State>, schedule: seq<Action>, i: nat, j: nat, t: TaskId)
    requires Execution(trace, schedule) && i <= j <= |schedule| && t in trace[i].done && t in trace[i].sizes
    ensures t in trace[j].done && t in trace[j].sizes && trace[j].sizes[t] == trace[i].sizes[t]
    decreases j
  {
    hide TaskDrains, Drains, Leads, Initial;
    if i < j {
      StaysUnregistered(trace, schedule, i, j - 1, t);
      TraceStep(trace, schedule, j - 1, t);
    }
  }

  lemma {:induction false} RecordAccounts(trace: seq<State>, schedule: seq<Action>, i: nat, j: nat, r: Record)
    requires |trace| == |schedule| + 1 && i <= j <= |schedule|
    requires forall k :: i <= k < j ==>
      Drains(trace[k], trace[k + 1], r, Moved(trace[k], schedule[k]), schedule[k].Take?)
    ensures Starts(schedule, i, j, r) + StartsLeft(trace[j], r) == StartsLeft(trace[i], r)
    decreases j
  {
    if i < j {
      RecordAccounts(trace, schedule, i, j - 1, r);
      var k := j - 1;
      assert Drains(trace[k], trace[k + 1], r, Moved(trace[k], schedule[k]), schedule[k].Take?);
    }
  }

  lemma {:induction false} TaskAccounts(
    trace: seq<State>, schedule: seq<Action>, i: nat, j: nat, t: TaskId, c: nat)
    requires |trace| == |schedule| + 1 && i <= j <= |schedule|
    requires forall k :: i <= k < j ==> TaskDrains(trace[k], trace[k + 1], schedule[k], t, c)
    ensures TaskStarts(schedule, i, j, t) + TaskStartsLeft(trace[j], t, c) == TaskStartsLeft(trace[i], t, c)
    ensures TaskSteps(trace, schedule, i, j, t) + TaskWeight(trace[j], t, c) == TaskWeight(trace[i], t, c)
    decreases j
  {
    if i < j {
      TaskAccounts(trace, schedule, i, j - 1, t, c);
      var k := j - 1;
      assert TaskDrains(trace[k], trace[k + 1], schedule[k], t, c);
    }
  }

  lemma EveryStepDrains(trace: seq<State>, schedule: seq<Action>, i: nat, j: nat, t: TaskId)
    requires Execution(trace, schedule) && i <= j <= |schedule| && t in trace[i].done && t in trace[i].sizes
    ensures forall k :: i <= k < j ==>
      TaskDrains(trace[k], trace[k + 1], schedule[k], t, trace[i].sizes[t])
    ensures forall k, r: Record :: i <= k < j && r.task == t ==>
      Drains(trace[k], trace[k + 1], r, Moved(trace[k], schedule[k]), schedule[k].Take?)
  {
    forall k | i <= k < j
      ensures TaskDrains(trace[k], trace[k + 1], schedule[k], t, trace[i].sizes[t])
      ensures forall r: Record :: r.task == t ==>
        Drains(trace[k], trace[k + 1], r, Moved(trace[k], schedule[k]), schedule[k].Take?)
    {
      StaysUnregistered(trace, schedule, i, k, t);
      TraceStep(trace, schedule, k, t);
    }
  }

  /**
   After `unRegisterThread` has returned true for a task, each of its records
   starts `fn` at most once more, the task at most `concurrency` times in all,
   and its records take at most four steps each until they are freed. The
   weight, which never goes up, is what the remaining steps are counted by.
   */
  lemma UnregisteredTaskDrains(trace: seq<State>, schedule: seq<Action>, i: nat, j: nat, t: TaskId)
    requires Execution(trace, schedule) && i <= j <= |schedule| && t in trace[i].done
    ensures t in trace[i].sizes
    ensures forall r: Record :: r.task == t ==> Starts(schedule, i, j, r) <= 1
    ensures TaskStarts(schedule, i, j, t) <= trace[i].sizes[t]
    ensures TaskSteps(trace, schedule, i, j, t)
         == TaskWeight(trace[i], t, trace[i].sizes[t]) - TaskWeight(trace[j], t, trace[i].sizes[t])
         <= 4 * trace[i].sizes[t]
  {
    InvHolds(trace, schedule, i);
    EveryStepDrains(trace, schedule, i, j, t);
    TaskAccounts(trace, schedule, i, j, t, trace[i].sizes[t]);
    forall r: Record | r.task == t ensures Starts(schedule, i, j, r) <= 1 {
      RecordAccounts(trace, schedule, i, j, r);
    }
  }

  lemma NoWeightNoToken(queue: multiset<Record>, workers: seq<Worker>, live: set<Record>, r: Record)
    requires Tokens(queue, workers, live)
    ensures Weight(queue, workers, r) == 0 <==> r !in live
  {
  }

  /** The weight is used up exactly when the record is freed. */
  lemma NoWeightLeft(trace: seq<State>, schedule: seq<Action>, k: nat, r: Record)
    requires Execution(trace, schedule) && k < |trace|
    ensures Weight(trace[k].queue, trace[k].workers, r) == 0 <==> r !in trace[k].active
  {
    InvHolds(trace, schedule, k);
    NoWeightNoToken(trace[k].queue, trace[k].workers, trace[k].active.Keys, r);
  }
}
