/**
 The thread pool as a protocol: task records circulate between the completion
 queue and the workers, while other threads register and unregister tasks. A
 step is one access to shared data; the mutex makes insertion and the final
 bookkeeping of a record single steps, but `taskState` is read without it, so
 the loop of `unRegisterThread` is one step per record.
 */
module PoolProtocol {
  import opened Options
  import opened PoolTable

  type TaskId = nat

  /** The `slot`-th record that `registerThread` allocates for a task. */
  datatype Record = Record(task: TaskId, slot: nat)

  /** Where a worker is inside `callBackFunction`. */
  datatype Worker =
    | Idle
    | Calling(r: Record)    // inside fn
    | Reposting(r: Record)  // read a non-zero taskState
    | Finishing(r: Record)  // read taskState == 0, waits for the mutex

  /** A call of `registerThread` between drawing its id and the map insertion. */
  datatype Registration = Registration(concurrency: nat, posted: nat)

  /** A call of `unRegisterThread` that holds the mutex and has cleared `next` records. */
  datatype Marking = Marking(task: TaskId, next: nat)

  datatype State = State(
    lastId: TaskId,
    registering: map<TaskId, Registration>,
    active: map<Record, bool>,                 // the allocated records and whether taskState != 0
    queue: multiset<Record>,                   // the completion queue
    workers: seq<Worker>,
    tasks: map<TaskId, seq<Option<Record>>>,   // threadTasks
    marking: Option<Marking>,
    // history
    sizes: map<TaskId, nat>,                   // the concurrency of every task ever registered
    freed: set<Record>,
    done: set<TaskId>)                         // the tasks for which unRegisterThread has returned true

  datatype Action =
    | Register(concurrency: nat) | Post(task: TaskId) | Insert(task: TaskId)
    | StartUnregister(task: TaskId) | Mark | EndUnregister
    | Take(w: nat, r: Record) | Return(w: nat) | Repost(w: nat) | Finish(w: nat)

  const CONCURRENCY_MAX: nat := 0xFFFF_FFFF

  /** The concurrency a request stands for; zero when it is refused. */
  function Granted(threads: nat, concurrency: nat): nat {
    var c := if concurrency == CONCURRENCY_MAX then threads else concurrency;
    if c > threads then 0 else c
  }

  /** What a thread can do next; `Finish`, `Insert` and the calls of `unRegisterThread` wait for the mutex. */
  predicate Enabled(s: State, a: Action) {
    match a
    case Register(_) => true
    case Post(t) => t in s.registering && s.registering[t].posted < s.registering[t].concurrency
    case Insert(t) =>
      s.marking.None? && t in s.registering && s.registering[t].posted == s.registering[t].concurrency
    case StartUnregister(_) => s.marking.None?
    case Mark =>
      && s.marking.Some? && s.marking.value.task in s.tasks
      && s.marking.value.next < |s.tasks[s.marking.value.task]|
    case EndUnregister =>
      && s.marking.Some? && s.marking.value.task in s.tasks
      && s.marking.value.next == |s.tasks[s.marking.value.task]|
    case Take(w, r) => w < |s.workers| && s.workers[w].Idle? && r in s.queue
    case Return(w) => w < |s.workers| && s.workers[w].Calling?
    case Repost(w) => w < |s.workers| && s.workers[w].Reposting?
    case Finish(w) => s.marking.None? && w < |s.workers| && s.workers[w].Finishing?
  }

  /** The pointer a step goes through, if any; `None` inside stands for NULL. */
  function Dereferenced(s: State, a: Action): Option<Option<Record>>
    requires Enabled(s, a)
  {
    match a
    case Mark => Some(s.tasks[s.marking.value.task][s.marking.value.next])
    case Take(_, r) => Some(Some(r))
    case Return(w) => Some(Some(s.workers[w].r))
    case Repost(w) => Some(Some(s.workers[w].r))
    case Finish(w) => Some(Some(s.workers[w].r))
    case _ => None
  }

  /** The step goes through no NULL pointer and no pointer to a freed record. */
  predicate Safe(s: State, a: Action)
    requires Enabled(s, a)
  {
    match Dereferenced(s, a)
    case None => true
    case Some(pointer) => pointer.Some? && pointer.value in s.active
  }

  /** Id `t` is drawn for a task of `c` records. */
  function Drawn(s: State, t: TaskId, c: nat): State {
    s.(lastId := t, registering := s.registering[t := Registration(c, 0)], sizes := s.sizes[t := c])
  }

  /** The next record of task `t` is allocated and posted. */
  function Posted(s: State, t: TaskId, r: Record): State
    requires t in s.registering
  {
    var reg := s.registering[t];
    s.(registering := s.registering[t := reg.(posted := reg.posted + 1)],
       active := s.active[r := true],
       queue := s.queue + multiset{r})
  }

  /** `taskState` of `r` is zeroed, and the loop goes on. */
  function Marked(s: State, m: Marking, r: Record): State {
    s.(marking := Some(m.(next := m.next + 1)), active := s.active[r := false])
  }

  function Apply(s: State, a: Action): State
    requires Enabled(s, a) && Safe(s, a)
  {
    match a
    case Register(concurrency) =>
      var c := Granted(|s.workers|, concurrency);
      if c == 0 then s else Drawn(s, s.lastId + 1, c)
    case Post(t) => Posted(s, t, Record(t, s.registering[t].posted))
    case Insert(t) =>
      s.(registering := s.registering - {t},
         tasks := s.tasks[t := seq(s.registering[t].concurrency, i requires i >= 0 => Some(Record(t, i)))])
    case StartUnregister(t) =>
      if t in s.tasks then s.(marking := Some(Marking(t, 0))) else s
    case Mark =>
      var m := s.marking.value;
      Marked(s, m, s.tasks[m.task][m.next].value)
    case EndUnregister => s.(marking := None, done := s.done + {s.marking.value.task})
    case Take(w, r) =>
      s.(queue := s.queue - multiset{r}, workers := s.workers[w := Calling(r)])
    case Return(w) =>
      var r := s.workers[w].r;
      s.(workers := s.workers[w := if s.active[r] then Reposting(r) else Finishing(r)])
    case Repost(w) =>
      var r := s.workers[w].r;
      s.(queue := s.queue + multiset{r}, workers := s.workers[w := Idle])
    case Finish(w) =>
      var r := s.workers[w].r;
      if r.task !in s.tasks then s.(workers := s.workers[w := Idle])  // "task not found"
      else s.(workers := s.workers[w := Idle],
              tasks := AfterFinish(s.tasks, r.task, r),
              active := s.active - {r},
              freed := s.freed + {r})
  }

  /** A request for all workers gets them, one for as many as there are at most gets those, and any other is refused. */
  lemma RequestsGranted(s: State, concurrency: nat)
    ensures var n, t, all := Apply(s, Register(concurrency)), s.lastId + 1, concurrency == CONCURRENCY_MAX;
      if (all && |s.workers| > 0) || (!all && 0 < concurrency <= |s.workers|)
      then && n.sizes == s.sizes[t := if all then |s.workers| else concurrency] && n.lastId == t
           && t in n.registering && n.registering[t] == Registration(n.sizes[t], 0)
      else n == s
  {
  }

  ghost predicate Initial(s: State) {
    && s.lastId == 0 && s.registering == map[] && s.active == map[] && s.queue == multiset{}
    && (forall w :: 0 <= w < |s.workers| ==> s.workers[w].Idle?)
    && s.tasks == map[] && s.marking.None? && s.sizes == map[] && s.freed == {} && s.done == {}
  }

  ghost predicate Leads(s: State, a: Action, n: State) {
    Enabled(s, a) && Safe(s, a) && n == Apply(s, a)
  }

  /** A part of an execution, from any state. */
  ghost predicate Steps(trace: seq<State>, schedule: seq<Action>) {
    && |trace| == |schedule| + 1
    && forall k :: 0 <= k < |schedule| ==> Leads(trace[k], schedule[k], trace[k + 1])
  }

  ghost predicate Execution(trace: seq<State>, schedule: seq<Action>) {
    Steps(trace, schedule) && Initial(trace[0])
  }

  lemma Joined(trace: seq<State>, schedule: seq<Action>, next: seq<State>, more: seq<Action>)
    requires Steps(trace, schedule) && Steps(next, more) && next[0] == trace[|schedule|]
    ensures Steps(trace + next[1..], schedule + more)
    ensures (trace + next[1..])[|schedule| + |more|] == next[|more|]
    ensures (trace + next[1..])[0] == trace[0]
  {
    var all, steps := trace + next[1..], schedule + more;
    forall k | 0 <= k < |steps| ensures Leads(all[k], steps[k], all[k + 1]) {
      if k < |schedule| {
        assert Leads(trace[k], schedule[k], trace[k + 1]);
      } else {
        assert Leads(next[k - |schedule|], more[k - |schedule|], next[k - |schedule| + 1]);
        assert all[k] == next[k - |schedule|];
      }
    }
  }

  lemma Extended(trace: seq<State>, schedule: seq<Action>, a: Action, n: State)
    requires Steps(trace, schedule) && Leads(trace[|schedule|], a, n)
    ensures Steps(trace + [n], schedule + [a])
    ensures (trace + [n])[0] == trace[0] && (trace + [n])[|schedule + [a]|] == n
  {
    assert Steps([trace[|schedule|], n], [a]);
    Joined(trace, schedule, [trace[|schedule|], n], [a]);
    assert [trace[|schedule|], n][1..] == [n];
  }

  // ----- Invariants -----

  predicate Holds(worker: Worker, r: Record) {
    !worker.Idle? && worker.r == r
  }

  ghost predicate Held(workers: seq<Worker>, r: Record) {
    exists w :: 0 <= w < |workers| && Holds(workers[w], r)
  }

  /** No record is with two workers. */
  ghost predicate Exclusive(workers: seq<Worker>) {
    forall v, w :: 0 <= v < |workers| && 0 <= w < |workers| && !workers[v].Idle? ==>
      (Holds(workers[w], workers[v].r) ==> v == w)
  }

  /** Every allocated record, and nothing else, has exactly one token: in the queue or with one worker. */
  ghost predicate Tokens(queue: multiset<Record>, workers: seq<Worker>, live: set<Record>) {
    && Exclusive(workers)
    && (forall r: Record :: queue[r] <= 1)
    && (forall r: Record :: Held(workers, r) ==> queue[r] == 0)
    && (forall r: Record :: r in live <==> r in queue || Held(workers, r))
  }

  /** Ids are drawn once; a task is being registered, in the map, or gone from it. */
  ghost predicate Ids(
    lastId: TaskId, registering: map<TaskId, Registration>, sizes: map<TaskId, nat>,
    mapped: set<TaskId>, done: set<TaskId>)
  {
    && (forall t :: t in registering ==> t in sizes && t !in mapped && t !in done)
    && (forall t :: t in registering ==> registering[t].posted <= registering[t].concurrency == sizes[t])
    && (forall t :: t in sizes ==> 0 < sizes[t] && t <= lastId)
    && (forall t :: t in mapped || t in done ==> t in sizes)
  }

  /** The records of a task being registered are the posted ones; later they belong to a mapped task. */
  ghost predicate Owners(
    registering: map<TaskId, Registration>, sizes: map<TaskId, nat>, mapped: set<TaskId>, live: set<Record>)
  {
    && (forall r :: r in live ==> r.task in sizes && r.slot < sizes[r.task])
    && (forall r: Record :: r.task in registering ==> (r in live <==> r.slot < registering[r.task].posted))
    && (forall r :: r in live && r.task !in registering ==> r.task in mapped)
  }

  /** A slot of the map points to its record while that is allocated, and is empty afterwards. */
  ghost predicate Slots(tasks: map<TaskId, seq<Option<Record>>>, sizes: map<TaskId, nat>, live: set<Record>) {
    && (forall t :: t in tasks ==> t in sizes && |tasks[t]| == sizes[t] && SomePresent(tasks[t]))
    && (forall t, i :: t in tasks && 0 <= i < |tasks[t]| ==>
          tasks[t][i] == if Record(t, i) in live then Some(Record(t, i)) else None)
  }

  predicate IsMarked(marking: Option<Marking>, r: Record) {
    marking.Some? && r.task == marking.value.task && r.slot < marking.value.next
  }

  /** `taskState` is zero exactly for the records that an unregistration has reached. */
  ghost predicate Marks(marking: Option<Marking>, done: set<TaskId>, active: map<Record, bool>) {
    forall r :: r in active ==> (!active[r] <==> r.task in done || IsMarked(marking, r))
  }

  /** The slots that an unregistration has got past are filled. */
  predicate FirstPresent(slots: seq<Option<Record>>, n: nat)
    requires n <= |slots|
  {
    forall i :: 0 <= i < n ==> slots[i].Some?
  }

  /** The task being unregistered is mapped, and every mapped task not yet unregistered is complete. */
  ghost predicate Complete(marking: Option<Marking>, done: set<TaskId>, tasks: map<TaskId, seq<Option<Record>>>) {
    && (marking.Some? ==> marking.value.task in tasks)
    && (marking.Some? ==> marking.value.next <= |tasks[marking.value.task]|)
    && (marking.Some? ==> FirstPresent(tasks[marking.value.task], marking.value.next))
    && (forall t :: t in tasks && t !in done ==> AllPresent(tasks[t]))
  }

  /** A worker waiting to finish a record has read zero, and that is final. */
  ghost predicate Finishers(workers: seq<Worker>, active: map<Record, bool>) {
    forall w :: 0 <= w < |workers| && workers[w].Finishing? ==> workers[w].r in active && !active[workers[w].r]
  }

  ghost predicate Freed(freed: set<Record>, done: set<TaskId>, live: set<Record>) {
    freed !! live && forall r :: r in freed ==> r.task in done
  }

  ghost predicate Inv(s: State) {
    && Tokens(s.queue, s.workers, s.active.Keys)
    && Ids(s.lastId, s.registering, s.sizes, s.tasks.Keys, s.done)
    && Owners(s.registering, s.sizes, s.tasks.Keys, s.active.Keys)
    && Slots(s.tasks, s.sizes, s.active.Keys)
    && Marks(s.marking, s.done, s.active)
    && Complete(s.marking, s.done, s.tasks)
    && Finishers(s.workers, s.active)
    && Freed(s.freed, s.done, s.active.Keys)
  }

  // ----- Every step keeps them -----

  /** The slot that is marked next points to its record while that is allocated. */
  lemma MarkTarget(
    tasks: map<TaskId, seq<Option<Record>>>, sizes: map<TaskId, nat>, live: set<Record>, m: Marking)
    requires Slots(tasks, sizes, live) && m.task in tasks && m.next < |tasks[m.task]|
    ensures tasks[m.task][m.next]
         == if Record(m.task, m.next) in live then Some(Record(m.task, m.next)) else None
  {
  }

  lemma HeldIsLive(queue: multiset<Record>, workers: seq<Worker>, live: set<Record>, w: nat)
    requires Tokens(queue, workers, live) && w < |workers| && !workers[w].Idle?
    ensures workers[w].r in live
  {
    assert Holds(workers[w], workers[w].r);
  }

  /** `unRegisterThread` is the only one that can go through NULL, and not in the first call for a task. */
  lemma StepsAreSafe(s: State, a: Action)
    requires Inv(s) && Enabled(s, a)
    ensures Safe(s, a) <==> (a.Mark? ==> Record(s.marking.value.task, s.marking.value.next) in s.active)
    ensures a.Mark? && s.marking.value.task !in s.done ==> Safe(s, a)
  {
    hide Ids, Owners, Slots, Marks, Finishers, Freed;
    match a
    case Mark => MarkTarget(s.tasks, s.sizes, s.active.Keys, s.marking.value);
    case Return(w) => HeldIsLive(s.queue, s.workers, s.active.Keys, w);
    case Repost(w) => HeldIsLive(s.queue, s.workers, s.active.Keys, w);
    case Finish(w) => HeldIsLive(s.queue, s.workers, s.active.Keys, w);
    case _ =>
  }

  /** Replacing what worker `w` does takes the record from it and gives it the new one. */
  lemma Swap(workers: seq<Worker>, w: nat, n: Worker, r: Record)
    requires Exclusive(workers) && w < |workers|
    ensures Held(workers[w := n], r) <==> Holds(n, r) || (Held(workers, r) && !Holds(workers[w], r))
  {
    var after := workers[w := n];
    if Holds(n, r) {
      assert Holds(after[w], r);
    }
    if Held(workers, r) && !Holds(workers[w], r) {
      var v :| 0 <= v < |workers| && Holds(workers[v], r);
      assert Holds(after[v], r);
    }
  }

  lemma SwapAll(workers: seq<Worker>, w: nat, n: Worker)
    requires Exclusive(workers) && w < |workers|
    requires !n.Idle? ==> Holds(workers[w], n.r) || !Held(workers, n.r)
    ensures Exclusive(workers[w := n])
    ensures forall r: Record ::
      Held(workers[w := n], r) <==> Holds(n, r) || (Held(workers, r) && !Holds(workers[w], r))
  {
    forall r: Record
      ensures Held(workers[w := n], r) <==> Holds(n, r) || (Held(workers, r) && !Holds(workers[w], r))
    {
      Swap(workers, w, n, r);
    }
  }

  lemma TakeMovesToken(queue: multiset<Record>, workers: seq<Worker>, live: set<Record>, w: nat, r: Record)
    requires Tokens(queue, workers, live) && w < |workers| && workers[w].Idle? && r in queue
    ensures Tokens(queue - multiset{r}, workers[w := Calling(r)], live)
  {
    SwapAll(workers, w, Calling(r));
  }

  lemma KeepingToken(queue: multiset<Record>, workers: seq<Worker>, live: set<Record>, w: nat, n: Worker)
    requires Tokens(queue, workers, live) && w < |workers| && !workers[w].Idle?
    requires !n.Idle? && n.r == workers[w].r
    ensures Tokens(queue, workers[w := n], live)
  {
    assert Holds(workers[w], n.r);
    SwapAll(workers, w, n);
  }

  lemma RepostMovesToken(queue: multiset<Record>, workers: seq<Worker>, live: set<Record>, w: nat)
    requires Tokens(queue, workers, live) && w < |workers| && !workers[w].Idle?
    ensures Tokens(queue + multiset{workers[w].r}, workers[w := Idle], live)
  {
    assert Holds(workers[w], workers[w].r);
    SwapAll(workers, w, Idle);
  }

  lemma FinishDropsToken(queue: multiset<Record>, workers: seq<Worker>, live: set<Record>, w: nat)
    requires Tokens(queue, workers, live) && w < |workers| && !workers[w].Idle?
    ensures Tokens(queue, workers[w := Idle], live - {workers[w].r})
  {
    assert Holds(workers[w], workers[w].r);
    SwapAll(workers, w, Idle);
  }

  lemma PostAddsToken(queue: multiset<Record>, workers: seq<Worker>, live: set<Record>, r: Record)
    requires Tokens(queue, workers, live) && r !in live
    ensures Tokens(queue + multiset{r}, workers, live + {r})
  {
  }

  lemma RegisterKeepsTables(
    lastId: TaskId, registering: map<TaskId, Registration>, sizes: map<TaskId, nat>,
    tasks: map<TaskId, seq<Option<Record>>>, done: set<TaskId>, live: set<Record>, c: nat)
    requires Ids(lastId, registering, sizes, tasks.Keys, done) && Owners(registering, sizes, tasks.Keys, live)
    requires Slots(tasks, sizes, live) && c > 0
    ensures var t := lastId + 1; var reg, all := registering[t := Registration(c, 0)], sizes[t := c];
      && Ids(t, reg, all, tasks.Keys, done)
      && Owners(reg, all, tasks.Keys, live)
      && Slots(tasks, all, live)
  {
  }

  lemma DrawKeeps(s: State, t: TaskId, c: nat)
    requires Inv(s) && t == s.lastId + 1 && c > 0
    ensures Inv(Drawn(s, t, c))
  {
    RegisterKeepsTables(s.lastId, s.registering, s.sizes, s.tasks, s.done, s.active.Keys, c);
  }

  lemma RegisterKeeps(s: State, concurrency: nat)
    requires Inv(s)
    ensures Inv(Apply(s, Register(concurrency)))
  {
    var c, n := Granted(|s.workers|, concurrency), Apply(s, Register(concurrency));
    if c == 0 {
      assert n == s;
    } else {
      assert n == Drawn(s, s.lastId + 1, c);
      DrawKeeps(s, s.lastId + 1, c);
    }
  }

  lemma PostKeepsTables(
    lastId: TaskId, registering: map<TaskId, Registration>, sizes: map<TaskId, nat>,
    tasks: map<TaskId, seq<Option<Record>>>, done: set<TaskId>, live: set<Record>, t: TaskId)
    requires Ids(lastId, registering, sizes, tasks.Keys, done) && Owners(registering, sizes, tasks.Keys, live)
    requires Slots(tasks, sizes, live)
    requires t in registering && registering[t].posted < registering[t].concurrency
    ensures var reg := registering[t].(posted := registering[t].posted + 1);
      var more := live + {Record(t, registering[t].posted)};
      && Ids(lastId, registering[t := reg], sizes, tasks.Keys, done)
      && Owners(registering[t := reg], sizes, tasks.Keys, more)
      && Slots(tasks, sizes, more)
  {
  }

  lemma PostKeepsRecords(
    marking: Option<Marking>, tasks: map<TaskId, seq<Option<Record>>>, done: set<TaskId>, freed: set<Record>,
    active: map<Record, bool>, workers: seq<Worker>, r: Record)
    requires Marks(marking, done, active) && Complete(marking, done, tasks)
    requires Finishers(workers, active) && Freed(freed, done, active.Keys)
    requires r.task !in tasks && r.task !in done && r !in active
    ensures Marks(marking, done, active[r := true]) && Finishers(workers, active[r := true])
    ensures Freed(freed, done, active.Keys + {r})
  {
  }

  /** The record that is posted next is new. */
  lemma PostIsNew(
    lastId: TaskId, registering: map<TaskId, Registration>, sizes: map<TaskId, nat>, mapped: set<TaskId>,
    done: set<TaskId>, live: set<Record>, t: TaskId)
    requires Ids(lastId, registering, sizes, mapped, done) && Owners(registering, sizes, mapped, live)
    requires t in registering
    ensures Record(t, registering[t].posted) !in live && t !in mapped && t !in done
  {
  }

  lemma PostKeepsAll(
    s: State, t: TaskId, r: Record, registering: map<TaskId, Registration>, active: map<Record, bool>,
    queue: multiset<Record>)
    requires Tokens(s.queue, s.workers, s.active.Keys)
    requires Ids(s.lastId, s.registering, s.sizes, s.tasks.Keys, s.done)
    requires Owners(s.registering, s.sizes, s.tasks.Keys, s.active.Keys) && Slots(s.tasks, s.sizes, s.active.Keys)
    requires Marks(s.marking, s.done, s.active) && Complete(s.marking, s.done, s.tasks)
    requires Finishers(s.workers, s.active) && Freed(s.freed, s.done, s.active.Keys)
    requires t in s.registering && s.registering[t].posted < s.registering[t].concurrency
    requires r == Record(t, s.registering[t].posted)
    requires registering == s.registering[t := s.registering[t].(posted := r.slot + 1)]
    requires active == s.active[r := true] && queue == s.queue + multiset{r}
    ensures Tokens(queue, s.workers, active.Keys)
    ensures Ids(s.lastId, registering, s.sizes, s.tasks.Keys, s.done)
    ensures Owners(registering, s.sizes, s.tasks.Keys, active.Keys) && Slots(s.tasks, s.sizes, active.Keys)
    ensures Marks(s.marking, s.done, active) && Finishers(s.workers, active) && Freed(s.freed, s.done, active.Keys)
  {
    hide Tokens, Ids, Owners, Slots, Marks, Complete, Finishers, Freed;
    PostIsNew(s.lastId, s.registering, s.sizes, s.tasks.Keys, s.done, s.active.Keys, t);
    assert active.Keys == s.active.Keys + {r};
    PostAddsToken(s.queue, s.workers, s.active.Keys, r);
    PostKeepsTables(s.lastId, s.registering, s.sizes, s.tasks, s.done, s.active.Keys, t);
    PostKeepsRecords(s.marking, s.tasks, s.done, s.freed, s.active, s.workers, r);
  }

  lemma GrownKeeps(
    s: State, registering: map<TaskId, Registration>, active: map<Record, bool>, queue: multiset<Record>)
    requires Inv(s)
    requires Tokens(queue, s.workers, active.Keys)
    requires Ids(s.lastId, registering, s.sizes, s.tasks.Keys, s.done)
    requires Owners(registering, s.sizes, s.tasks.Keys, active.Keys)
    requires Slots(s.tasks, s.sizes, active.Keys)
    requires Marks(s.marking, s.done, active) && Finishers(s.workers, active) && Freed(s.freed, s.done, active.Keys)
    ensures Inv(s.(registering := registering, active := active, queue := queue))
  {
  }

  lemma PostedKeeps(s: State, t: TaskId, r: Record)
    requires Inv(s) && t in s.registering && s.registering[t].posted < s.registering[t].concurrency
    requires r == Record(t, s.registering[t].posted)
    ensures Inv(Posted(s, t, r))
  {
    var n := Posted(s, t, r);
    PostKeepsAll(s, t, r, n.registering, n.active, n.queue);
    GrownKeeps(s, n.registering, n.active, n.queue);
    assert n == s.(registering := n.registering, active := n.active, queue := n.queue);
  }

  lemma PostKeeps(s: State, t: TaskId)
    requires Inv(s) && Enabled(s, Post(t))
    ensures Inv(Apply(s, Post(t)))
  {
    var r := Record(t, s.registering[t].posted);
    assert Apply(s, Post(t)) == Posted(s, t, r);
    PostedKeeps(s, t, r);
  }

  lemma InsertKeepsTables(
    lastId: TaskId, registering: map<TaskId, Registration>, sizes: map<TaskId, nat>,
    tasks: map<TaskId, seq<Option<Record>>>, done: set<TaskId>, live: set<Record>,
    t: TaskId, slots: seq<Option<Record>>)
    requires Ids(lastId, registering, sizes, tasks.Keys, done) && Owners(registering, sizes, tasks.Keys, live)
    requires Slots(tasks, sizes, live) && Complete(None, done, tasks)
    requires t in registering && registering[t].posted == registering[t].concurrency == |slots|
    requires forall i :: 0 <= i < |slots| ==> slots[i] == Some(Record(t, i))
    ensures tasks[t := slots].Keys == tasks.Keys + {t}
    ensures Ids(lastId, registering - {t}, sizes, tasks.Keys + {t}, done)
    ensures Owners(registering - {t}, sizes, tasks.Keys + {t}, live)
    ensures Slots(tasks[t := slots], sizes, live)
    ensures Complete(None, done, tasks[t := slots])
  {
    assert slots[0].Some?;
  }

  lemma InsertKeeps(s: State, t: TaskId)
    requires Inv(s) && Enabled(s, Insert(t))
    ensures Inv(Apply(s, Insert(t)))
  {
    var n := Apply(s, Insert(t));
    InsertKeepsTables(s.lastId, s.registering, s.sizes, s.tasks, s.done, s.active.Keys, t, n.tasks[t]);
  }

  lemma StartUnregisterKeeps(s: State, t: TaskId)
    requires Inv(s) && Enabled(s, StartUnregister(t))
    ensures Inv(Apply(s, StartUnregister(t)))
  {
  }

  lemma MarkKeepsMarks(m: Marking, done: set<TaskId>, active: map<Record, bool>)
    requires Marks(Some(m), done, active)
    ensures Marks(Some(m.(next := m.next + 1)), done, active[Record(m.task, m.next) := false])
  {
  }

  lemma MarkKeepsComplete(m: Marking, done: set<TaskId>, tasks: map<TaskId, seq<Option<Record>>>)
    requires Complete(Some(m), done, tasks) && m.next < |tasks[m.task]| && tasks[m.task][m.next].Some?
    ensures Complete(Some(m.(next := m.next + 1)), done, tasks)
  {
  }

  lemma MarkKeepsRecords(
    m: Marking, tasks: map<TaskId, seq<Option<Record>>>, done: set<TaskId>, active: map<Record, bool>,
    workers: seq<Worker>)
    requires Marks(Some(m), done, active) && Complete(Some(m), done, tasks) && Finishers(workers, active)
    requires m.next < |tasks[m.task]| && tasks[m.task][m.next] == Some(Record(m.task, m.next))
    requires Record(m.task, m.next) in active
    ensures var n, zeroed := Some(m.(next := m.next + 1)), active[Record(m.task, m.next) := false];
      && Marks(n, done, zeroed) && Complete(n, done, tasks) && Finishers(workers, zeroed)
      && zeroed.Keys == active.Keys
  {
    MarkKeepsMarks(m, done, active);
    MarkKeepsComplete(m, done, tasks);
  }

  lemma ZeroedKeeps(s: State, marking: Option<Marking>, active: map<Record, bool>)
    requires Inv(s) && active.Keys == s.active.Keys
    requires Marks(marking, s.done, active) && Complete(marking, s.done, s.tasks) && Finishers(s.workers, active)
    ensures Inv(s.(marking := marking, active := active))
  {
  }

  lemma MarkIsMarked(s: State, m: Marking)
    requires Slots(s.tasks, s.sizes, s.active.Keys) && s.marking == Some(m) && Enabled(s, Mark) && Safe(s, Mark)
    ensures Record(m.task, m.next) in s.active && s.tasks[m.task][m.next] == Some(Record(m.task, m.next))
    ensures var zeroed := s.active[Record(m.task, m.next) := false];
      Apply(s, Mark) == s.(marking := Some(m.(next := m.next + 1)), active := zeroed)
  {
    MarkTarget(s.tasks, s.sizes, s.active.Keys, m);
  }

  lemma MarkKeeps(s: State)
    requires Inv(s) && Enabled(s, Mark) && Safe(s, Mark)
    ensures Inv(Apply(s, Mark))
  {
    var m := s.marking.value;
    MarkIsMarked(s, m);
    MarkKeepsRecords(m, s.tasks, s.done, s.active, s.workers);
    ZeroedKeeps(s, Some(m.(next := m.next + 1)), s.active[Record(m.task, m.next) := false]);
  }

  lemma EndUnregisterKeepsMarks(
    m: Marking, tasks: map<TaskId, seq<Option<Record>>>, sizes: map<TaskId, nat>, done: set<TaskId>,
    active: map<Record, bool>, freed: set<Record>)
    requires Marks(Some(m), done, active) && Complete(Some(m), done, tasks) && Slots(tasks, sizes, active.Keys)
    requires m.next == sizes[m.task]
    requires forall r :: r in active ==> r.task in sizes && r.slot < sizes[r.task]
    requires Freed(freed, done, active.Keys)
    ensures Marks(None, done + {m.task}, active) && Complete(None, done + {m.task}, tasks)
    ensures Freed(freed, done + {m.task}, active.Keys)
  {
  }

  lemma EndUnregisterKeeps(s: State)
    requires Inv(s) && Enabled(s, EndUnregister)
    ensures Inv(Apply(s, EndUnregister))
  {
    hide Tokens, Finishers;
    EndUnregisterKeepsMarks(s.marking.value, s.tasks, s.sizes, s.done, s.active, s.freed);
  }

  lemma MovedKeeps(s: State, queue: multiset<Record>, workers: seq<Worker>)
    requires Inv(s) && Tokens(queue, workers, s.active.Keys) && Finishers(workers, s.active)
    ensures Inv(s.(queue := queue, workers := workers))
  {
  }

  lemma TakeKeeps(s: State, w: nat, r: Record)
    requires Inv(s) && Enabled(s, Take(w, r)) && Safe(s, Take(w, r))
    ensures Inv(Apply(s, Take(w, r)))
  {
    TakeMovesToken(s.queue, s.workers, s.active.Keys, w, r);
    var n := Apply(s, Take(w, r));
    MovedKeeps(s, n.queue, n.workers);
    assert n == s.(queue := n.queue, workers := n.workers);
  }

  lemma ReturnKeepsToken(
    queue: multiset<Record>, workers: seq<Worker>, active: map<Record, bool>, w: nat, next: Worker)
    requires Tokens(queue, workers, active.Keys) && Finishers(workers, active)
    requires w < |workers| && workers[w].Calling? && workers[w].r in active
    requires next == if active[workers[w].r] then Reposting(workers[w].r) else Finishing(workers[w].r)
    ensures Tokens(queue, workers[w := next], active.Keys) && Finishers(workers[w := next], active)
  {
    KeepingToken(queue, workers, active.Keys, w, next);
  }

  lemma ReturnKeeps(s: State, w: nat)
    requires Inv(s) && Enabled(s, Return(w)) && Safe(s, Return(w))
    ensures Inv(Apply(s, Return(w)))
  {
    var n := Apply(s, Return(w));
    ReturnKeepsToken(s.queue, s.workers, s.active, w, n.workers[w]);
    MovedKeeps(s, n.queue, n.workers);
    assert n == s.(queue := n.queue, workers := n.workers);
  }

  lemma RepostKeepsToken(queue: multiset<Record>, workers: seq<Worker>, active: map<Record, bool>, w: nat)
    requires Tokens(queue, workers, active.Keys) && Finishers(workers, active)
    requires w < |workers| && workers[w].Reposting?
    ensures Tokens(queue + multiset{workers[w].r}, workers[w := Idle], active.Keys)
    ensures Finishers(workers[w := Idle], active)
  {
    RepostMovesToken(queue, workers, active.Keys, w);
  }

  lemma RepostKeeps(s: State, w: nat)
    requires Inv(s) && Enabled(s, Repost(w)) && Safe(s, Repost(w))
    ensures Inv(Apply(s, Repost(w)))
  {
    var n := Apply(s, Repost(w));
    RepostKeepsToken(s.queue, s.workers, s.active, w);
    MovedKeeps(s, n.queue, n.workers);
    assert n == s.(queue := n.queue, workers := n.workers);
  }

  lemma FinishKeepsSlots(
    tasks: map<TaskId, seq<Option<Record>>>, sizes: map<TaskId, nat>, live: set<Record>, r: Record)
    requires Slots(tasks, sizes, live) && r in live && r.task in tasks && r.slot < sizes[r.task]
    ensures Slots(AfterFinish(tasks, r.task, r), sizes, live - {r})
    ensures r.task !in AfterFinish(tasks, r.task, r) ==>
      forall q :: q in live && q.task == r.task && q.slot < sizes[r.task] ==> q == r
  {
  }

  lemma FinishKeepsWorkers(workers: seq<Worker>, active: map<Record, bool>, w: nat)
    requires Exclusive(workers) && Finishers(workers, active) && w < |workers| && !workers[w].Idle?
    ensures Finishers(workers[w := Idle], active - {workers[w].r})
  {
  }

  lemma FinishKeepsTables(
    registering: map<TaskId, Registration>, sizes: map<TaskId, nat>, tasks: map<TaskId, seq<Option<Record>>>,
    done: set<TaskId>, live: set<Record>, r: Record)
    requires Owners(registering, sizes, tasks.Keys, live) && Slots(tasks, sizes, live) && Complete(None, done, tasks)
    requires r in live && r.task in done && r.task !in registering
    ensures r.task in tasks
    ensures var after := AfterFinish(tasks, r.task, r);
      && after.Keys <= tasks.Keys
      && Owners(registering, sizes, after.Keys, live - {r})
      && Slots(after, sizes, live - {r})
      && Complete(None, done, after)
  {
    FinishKeepsSlots(tasks, sizes, live, r);
  }

  lemma FinishKeepsHistory(s: State, after: set<TaskId>, r: Record)
    requires Ids(s.lastId, s.registering, s.sizes, s.tasks.Keys, s.done) && Marks(s.marking, s.done, s.active)
    requires Freed(s.freed, s.done, s.active.Keys)
    requires after <= s.tasks.Keys && r.task in s.done
    ensures Ids(s.lastId, s.registering, s.sizes, after, s.done)
    ensures Marks(s.marking, s.done, s.active - {r})
    ensures Freed(s.freed + {r}, s.done, s.active.Keys - {r})
  {
  }

  lemma DoneNotRegistering(s: State, r: Record)
    requires Ids(s.lastId, s.registering, s.sizes, s.tasks.Keys, s.done) && Marks(s.marking, s.done, s.active)
    requires s.marking.None? && r in s.active && !s.active[r]
    ensures r.task in s.done && r.task !in s.registering
  {
  }

  lemma FinishKeeps(s: State, w: nat)
    requires Inv(s) && Enabled(s, Finish(w)) && Safe(s, Finish(w))
    ensures Inv(Apply(s, Finish(w)))
  {
    var n, r := Apply(s, Finish(w)), s.workers[w].r;
    DoneNotRegistering(s, r);
    FinishDropsToken(s.queue, s.workers, s.active.Keys, w);
    FinishKeepsTables(s.registering, s.sizes, s.tasks, s.done, s.active.Keys, r);
    FinishKeepsWorkers(s.workers, s.active, w);
    FinishKeepsHistory(s, n.tasks.Keys, r);
    assert n.active.Keys == s.active.Keys - {r};
  }
}
