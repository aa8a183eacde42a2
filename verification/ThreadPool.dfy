/**
 The thread pool's own code: the three calls with their loops, and the worker's
 receive, run one at a time. Each takes the state of the protocol that the pool
 shows to the one its uninterrupted steps lead to.
 */
module ThreadPool {
  import opened Options
  import opened PoolTable
  import opened PoolProtocol
  import opened PoolCalls
  import opened PoolGuarantees

  /** A task record; the slot is the position that `registerThread` gave it. */
  class Overlapped {
    const taskId: nat
    ghost const slot: nat
    var taskState: nat

    constructor (taskId: nat, ghost slot: nat)
      ensures this.taskId == taskId && this.slot == slot && taskState == 1
    {
      this.taskId := taskId;
      this.slot := slot;
      taskState := 1;
    }
  }

  ghost function Name(o: Overlapped): Record {
    Record(o.taskId, o.slot)
  }

  ghost function Names(os: seq<Overlapped>): (names: seq<Record>)
    ensures |names| == |os|
  {
    seq(|os|, i requires 0 <= i < |os| => Name(os[i]))
  }

  /** The records a pointer vector points to. */
  function Pointees(slots: seq<Option<Overlapped>>): set<Overlapped> {
    set i | 0 <= i < |slots| && slots[i].Some? :: slots[i].value
  }

  /** The map points to `o`, where it belongs. */
  ghost predicate Owned(threadTasks: map<nat, seq<Option<Overlapped>>>, o: Overlapped) {
    o.taskId in threadTasks && o.slot < |threadTasks[o.taskId]| && threadTasks[o.taskId][o.slot] == Some(o)
  }

  /** A pointer vector of task `t` and the slots of the protocol agree. */
  ghost predicate SlotsShow(slots: seq<Option<Overlapped>>, t: nat, records: seq<Option<Record>>) {
    && |slots| == |records|
    && forall i :: 0 <= i < |slots| ==>
         if slots[i].Some? then Name(slots[i].value) == Record(t, i) && records[i] == Some(Record(t, i))
         else records[i].None?
  }

  ghost predicate TasksShow(threadTasks: map<nat, seq<Option<Overlapped>>>, tasks: map<TaskId, seq<Option<Record>>>) {
    threadTasks.Keys == tasks.Keys && forall t :: t in threadTasks ==> SlotsShow(threadTasks[t], t, tasks[t])
  }

  /** Deleting a record does the same to both. */
  lemma ClearedShow(slots: seq<Option<Overlapped>>, t: nat, records: seq<Option<Record>>, o: Overlapped)
    requires SlotsShow(slots, t, records) && o.taskId == t && o.slot < |slots| && slots[o.slot] == Some(o)
    ensures SlotsShow(Cleared(slots, o), t, Cleared(records, Name(o)))
    ensures SomePresent(Cleared(slots, o)) <==> SomePresent(Cleared(records, Name(o)))
  {
    var a, b := Cleared(slots, o), Cleared(records, Name(o));
    forall i | 0 <= i < |a| ensures a[i].Some? <==> b[i].Some? {
      assert slots[i].Some? ==> (slots[i] == Some(o) <==> i == o.slot);
    }
  }

  lemma FinishShow(
    threadTasks: map<nat, seq<Option<Overlapped>>>, tasks: map<TaskId, seq<Option<Record>>>, o: Overlapped)
    requires TasksShow(threadTasks, tasks) && Owned(threadTasks, o)
    ensures TasksShow(AfterFinish(threadTasks, o.taskId, o), AfterFinish(tasks, o.taskId, Name(o)))
  {
    ClearedShow(threadTasks[o.taskId], o.taskId, tasks[o.taskId], o);
  }

  /** The completion queue holds each mapped record at most once, and nothing else. */
  ghost predicate QueueShows(
    queue: seq<Overlapped>, threadTasks: map<nat, seq<Option<Overlapped>>>, records: multiset<Record>)
  {
    && records == multiset(Names(queue))
    && (forall k :: 0 <= k < |queue| ==> Owned(threadTasks, queue[k]))
    && (forall k, l :: 0 <= k < l < |queue| ==> queue[k] != queue[l])
  }

  lemma QueueAppend(queue: seq<Overlapped>, more: seq<Overlapped>)
    ensures multiset(Names(queue + more)) == multiset(Names(queue)) + multiset(Names(more))
  {
    assert Names(queue + more) == Names(queue) + Names(more);
  }

  ghost function Allocated(threadTasks: map<nat, seq<Option<Overlapped>>>): set<Overlapped> {
    set t, i | t in threadTasks && 0 <= i < |threadTasks[t]| && threadTasks[t][i].Some? :: threadTasks[t][i].value
  }

  /** The allocated records of the protocol are the mapped ones. */
  ghost predicate RecordsShow(threadTasks: map<nat, seq<Option<Overlapped>>>, live: set<Record>) {
    && (forall r :: r in live ==> r.task in threadTasks && r.slot < |threadTasks[r.task]|)
    && (forall t, i :: t in threadTasks && 0 <= i < |threadTasks[t]| ==>
          (Record(t, i) in live <==> threadTasks[t][i].Some?))
  }

  /** `slots` points to the new records of task `id`. */
  ghost predicate FreshSlots(slots: seq<Option<Overlapped>>, id: nat, records: seq<Overlapped>) {
    && |slots| == |records|
    && forall k :: 0 <= k < |slots| ==> slots[k] == Some(records[k]) && Name(records[k]) == Record(id, k)
  }

  lemma RegisterShows(
    threadTasks: map<nat, seq<Option<Overlapped>>>, tasks: map<TaskId, seq<Option<Record>>>, live: set<Record>,
    id: nat, slots: seq<Option<Overlapped>>, records: seq<Overlapped>)
    requires TasksShow(threadTasks, tasks) && RecordsShow(threadTasks, live)
    requires id !in threadTasks && FreshSlots(slots, id, records)
    ensures TasksShow(threadTasks[id := slots], tasks[id := Pointers(id, |slots|)])
    ensures RecordsShow(threadTasks[id := slots], live + Started(id, |slots|).Keys)
  {
  }

  /** The records that were mapped keep their states; the new ones are active. */
  lemma RegisterActive(
    threadTasks: map<nat, seq<Option<Overlapped>>>, tasks: map<TaskId, seq<Option<Record>>>,
    active: map<Record, bool>, id: nat, slots: seq<Option<Overlapped>>, records: seq<Overlapped>, o: Overlapped)
    requires TasksShow(threadTasks, tasks) && RecordsShow(threadTasks, active.Keys)
    requires id !in threadTasks && FreshSlots(slots, id, records) && o in Allocated(threadTasks[id := slots])
    ensures var after := active + Started(id, |slots|);
      && Name(o) in after
      && if o in Allocated(threadTasks) then Name(o) in active && after[Name(o)] == active[Name(o)]
         else o in records && after[Name(o)]
  {
  }

  lemma RegisterQueueShows(
    queue: seq<Overlapped>, threadTasks: map<nat, seq<Option<Overlapped>>>, names: multiset<Record>,
    id: nat, slots: seq<Option<Overlapped>>, records: seq<Overlapped>)
    requires QueueShows(queue, threadTasks, names) && id !in threadTasks && FreshSlots(slots, id, records)
    ensures QueueShows(queue + records, threadTasks[id := slots], names + multiset(Records(id, |records|)))
  {
    QueueAppend(queue, records);
    assert Names(records) == Records(id, |records|);
    assert forall k :: 0 <= k < |queue| ==> queue[k].taskId != id;
    forall k, l | 0 <= k < l < |queue + records| ensures (queue + records)[k] != (queue + records)[l] {
      if k >= |queue| {
        assert records[k - |queue|].slot == k - |queue| && records[l - |queue|].slot == l - |queue|;
      }
    }
  }

  lemma QueueTail(queue: seq<Overlapped>)
    requires queue != []
    ensures multiset(Names(queue[1..])) == multiset(Names(queue)) - multiset{Name(queue[0])}
  {
    QueueAppend([queue[0]], queue[1..]);
    assert queue == [queue[0]] + queue[1..] && Names([queue[0]]) == [Name(queue[0])];
  }

  lemma ReceiveQueueShows(
    queue: seq<Overlapped>, threadTasks: map<nat, seq<Option<Overlapped>>>, names: multiset<Record>)
    requires QueueShows(queue, threadTasks, names) && queue != []
    ensures QueueShows(queue[1..], threadTasks, names - multiset{Name(queue[0])})
    ensures Owned(threadTasks, queue[0]) && queue[0] !in queue[1..]
  {
    QueueTail(queue);
    assert forall k :: 0 <= k < |queue[1..]| ==> queue[1..][k] == queue[k + 1];
  }

  lemma RepostQueueShows(
    queue: seq<Overlapped>, threadTasks: map<nat, seq<Option<Overlapped>>>, names: multiset<Record>, o: Overlapped)
    requires QueueShows(queue, threadTasks, names) && Owned(threadTasks, o) && o !in queue
    ensures QueueShows(queue + [o], threadTasks, names + multiset{Name(o)})
  {
    QueueAppend(queue, [o]);
    assert Names([o]) == [Name(o)];
  }

  lemma FinishRecordsShow(
    threadTasks: map<nat, seq<Option<Overlapped>>>, tasks: map<TaskId, seq<Option<Record>>>, live: set<Record>,
    o: Overlapped)
    requires TasksShow(threadTasks, tasks) && RecordsShow(threadTasks, live) && Owned(threadTasks, o)
    ensures RecordsShow(AfterFinish(threadTasks, o.taskId, o), live - {Name(o)})
    ensures forall p :: p in Allocated(AfterFinish(threadTasks, o.taskId, o)) ==>
      p in Allocated(threadTasks) && Name(p) != Name(o)
  {
    var slots := Cleared(threadTasks[o.taskId], o);
    forall i | 0 <= i < |slots| ensures slots[i].Some? <==> threadTasks[o.taskId][i].Some? && i != o.slot {
    }
  }

  lemma FinishQueueShows(
    queue: seq<Overlapped>, threadTasks: map<nat, seq<Option<Overlapped>>>, names: multiset<Record>, o: Overlapped)
    requires QueueShows(queue, threadTasks, names) && Owned(threadTasks, o) && o !in queue
    ensures QueueShows(queue, AfterFinish(threadTasks, o.taskId, o), names)
  {
    var slots := Cleared(threadTasks[o.taskId], o);
    forall k | 0 <= k < |queue| ensures Owned(AfterFinish(threadTasks, o.taskId, o), queue[k]) {
      if queue[k].taskId == o.taskId {
        assert slots[queue[k].slot].Some?;
      }
    }
  }

  function CountPresent<R>(slots: seq<Option<R>>): nat {
    if slots == [] then 0 else (if slots[0].Some? then 1 else 0) + CountPresent(slots[1..])
  }

  lemma {:induction false} NonePresent<R>(slots: seq<Option<R>>)
    ensures CountPresent(slots) == 0 <==> !SomePresent(slots)
  {
    if slots != [] {
      NonePresent(slots[1..]);
      if SomePresent(slots[1..]) {
        var i :| 0 <= i < |slots[1..]| && slots[1..][i].Some?;
        assert slots[i + 1].Some?;
      }
      if SomePresent(slots) && slots[0].None? {
        var i :| 0 <= i < |slots| && slots[i].Some?;
        assert slots[1..][i - 1].Some?;
      }
    }
  }

  lemma {:induction false} CountOneMore<R>(slots: seq<Option<R>>, x: Option<R>)
    ensures CountPresent(slots + [x]) == CountPresent(slots) + if x.Some? then 1 else 0
  {
    if slots != [] {
      assert (slots + [x])[1..] == slots[1..] + [x];
      CountOneMore(slots[1..], x);
    }
  }

  /** Each worker that is not idle has received a mapped record and calls its function. */
  ghost predicate HeldShows(
    held: seq<Option<Overlapped>>, workers: seq<Worker>, threadTasks: map<nat, seq<Option<Overlapped>>>)
  {
    && |held| == |workers|
    && forall w :: 0 <= w < |held| ==>
         if held[w].Some? then workers[w] == Calling(Name(held[w].value)) && Owned(threadTasks, held[w].value)
         else workers[w].Idle?
  }

  /** No record is both with a worker and queued, or with two workers. */
  ghost predicate HeldOnce(held: seq<Option<Overlapped>>, queue: seq<Overlapped>) {
    && (forall w :: 0 <= w < |held| && held[w].Some? ==> held[w].value !in queue)
    && (forall v, w :: 0 <= v < w < |held| && held[v].Some? ==> held[v] != held[w])
  }

  lemma RegisterHeldShows(
    held: seq<Option<Overlapped>>, workers: seq<Worker>, threadTasks: map<nat, seq<Option<Overlapped>>>,
    queue: seq<Overlapped>, id: nat, slots: seq<Option<Overlapped>>, records: seq<Overlapped>)
    requires HeldShows(held, workers, threadTasks) && HeldOnce(held, queue)
    requires id !in threadTasks && FreshSlots(slots, id, records)
    ensures HeldShows(held, workers, threadTasks[id := slots]) && HeldOnce(held, queue + records)
  {
    forall w | 0 <= w < |held| && held[w].Some? ensures held[w].value !in queue + records {
      assert Owned(threadTasks, held[w].value);
      assert forall k :: 0 <= k < |records| ==> records[k].taskId == id;
    }
  }

  lemma ReceiveHeldShows(
    held: seq<Option<Overlapped>>, workers: seq<Worker>, threadTasks: map<nat, seq<Option<Overlapped>>>,
    queue: seq<Overlapped>, w: nat)
    requires HeldShows(held, workers, threadTasks) && HeldOnce(held, queue) && w < |held|
    requires queue != [] && Owned(threadTasks, queue[0]) && queue[0] !in queue[1..]
    ensures HeldShows(held[w := Some(queue[0])], workers[w := Calling(Name(queue[0]))], threadTasks)
    ensures HeldOnce(held[w := Some(queue[0])], queue[1..])
  {
    assert forall v :: 0 <= v < |held| && held[v].Some? ==> held[v].value != queue[0];
  }

  lemma RepostHeldShows(
    held: seq<Option<Overlapped>>, workers: seq<Worker>, threadTasks: map<nat, seq<Option<Overlapped>>>,
    queue: seq<Overlapped>, w: nat, o: Overlapped)
    requires HeldShows(held, workers, threadTasks) && HeldOnce(held, queue) && w < |held| && held[w] == Some(o)
    ensures HeldShows(held[w := None], workers[w := Idle], threadTasks)
    ensures HeldOnce(held[w := None], queue + [o])
  {
  }

  /** What other workers hold stays mapped when a record is deleted. */
  lemma FinishHeldShows(
    held: seq<Option<Overlapped>>, workers: seq<Worker>, threadTasks: map<nat, seq<Option<Overlapped>>>,
    queue: seq<Overlapped>, w: nat, o: Overlapped)
    requires HeldShows(held, workers, threadTasks) && HeldOnce(held, queue) && w < |held| && held[w] == Some(o)
    ensures HeldShows(held[w := None], workers[w := Idle], AfterFinish(threadTasks, o.taskId, o))
    ensures HeldOnce(held[w := None], queue)
  {
    var after, slots := AfterFinish(threadTasks, o.taskId, o), Cleared(threadTasks[o.taskId], o);
    forall v | 0 <= v < |held| && v != w && held[v].Some? ensures Owned(after, held[v].value) {
      var p := held[v].value;
      if p.taskId == o.taskId {
        assert slots[p.slot].Some?;
      }
    }
  }

  /** The fields of the pool. */
  datatype Fields = Fields(
    threadTaskId: nat, threadTasks: map<nat, seq<Option<Overlapped>>>, queue: seq<Overlapped>,
    held: seq<Option<Overlapped>>)

  /** They show a state of the protocol in which nobody is inside a call; `taskState` is not a matter of the fields. */
  ghost predicate Shown(f: Fields, s: State) {
    && s.lastId == f.threadTaskId && s.registering == map[] && s.marking.None?
    && (forall t :: t in f.threadTasks ==> t <= f.threadTaskId)
    && TasksShow(f.threadTasks, s.tasks)
    && RecordsShow(f.threadTasks, s.active.Keys)
    && QueueShows(f.queue, f.threadTasks, s.queue)
    && HeldShows(f.held, s.workers, f.threadTasks)
    && HeldOnce(f.held, f.queue)
  }

  lemma RegisterShown(f: Fields, s: State, slots: seq<Option<Overlapped>>, records: seq<Overlapped>)
    requires Shown(f, s) && FreshSlots(slots, f.threadTaskId + 1, records)
    ensures var id := f.threadTaskId + 1;
      && id !in f.threadTasks
      && Shown(Fields(id, f.threadTasks[id := slots], f.queue + records, f.held), Registered(s, |slots|))
      && forall o :: o in Allocated(f.threadTasks[id := slots]) ==>
           && Name(o) in Registered(s, |slots|).active
           && if o in Allocated(f.threadTasks)
              then Name(o) in s.active && Registered(s, |slots|).active[Name(o)] == s.active[Name(o)]
              else o in records && Registered(s, |slots|).active[Name(o)]
  {
    assert |records| == |slots|;
    hide TasksShow, RecordsShow, QueueShows, HeldShows, HeldOnce, FreshSlots;
    var id := f.threadTaskId + 1;
    RegisterShows(f.threadTasks, s.tasks, s.active.Keys, id, slots, records);
    assert Registered(s, |slots|).active.Keys == s.active.Keys + Started(id, |slots|).Keys;
    RegisterQueueShows(f.queue, f.threadTasks, s.queue, id, slots, records);
    RegisterHeldShows(f.held, s.workers, f.threadTasks, f.queue, id, slots, records);
    forall o | o in Allocated(f.threadTasks[id := slots])
      ensures Name(o) in Registered(s, |slots|).active
      ensures if o in Allocated(f.threadTasks)
              then Name(o) in s.active && Registered(s, |slots|).active[Name(o)] == s.active[Name(o)]
              else o in records && Registered(s, |slots|).active[Name(o)]
    {
      RegisterActive(f.threadTasks, s.tasks, s.active, id, slots, records, o);
    }
  }

  lemma ReceiveShown(f: Fields, s: State, w: nat)
    requires Shown(f, s) && f.queue != [] && w < |f.held| && f.held[w].None?
    ensures w < |s.workers| && Name(f.queue[0]) in s.queue && s.workers[w].Idle?
    ensures Shown(f.(queue := f.queue[1..], held := f.held[w := Some(f.queue[0])]), Received(s, w, Name(f.queue[0])))
  {
    assert Names(f.queue)[0] == Name(f.queue[0]);
    ReceiveQueueShows(f.queue, f.threadTasks, s.queue);
    ReceiveHeldShows(f.held, s.workers, f.threadTasks, f.queue, w);
  }

  lemma RepostShown(f: Fields, s: State, w: nat, o: Overlapped)
    requires Shown(f, s) && w < |f.held| && f.held[w] == Some(o)
    ensures w < |s.workers|
    ensures Shown(f.(queue := f.queue + [o], held := f.held[w := None]), Reposted(s, w, Name(o)))
  {
    RepostQueueShows(f.queue, f.threadTasks, s.queue, o);
    RepostHeldShows(f.held, s.workers, f.threadTasks, f.queue, w, o);
  }

  lemma FinishShown(f: Fields, s: State, w: nat, o: Overlapped)
    requires Shown(f, s) && w < |f.held| && f.held[w] == Some(o)
    ensures w < |s.workers| && o.taskId in s.tasks && Owned(f.threadTasks, o)
    ensures Shown(
      f.(threadTasks := AfterFinish(f.threadTasks, o.taskId, o), held := f.held[w := None]),
      Finished(s, w, Name(o)))
    ensures forall p :: p in Allocated(AfterFinish(f.threadTasks, o.taskId, o)) ==>
      p in Allocated(f.threadTasks) && Name(p) != Name(o)
  {
    FinishShow(f.threadTasks, s.tasks, o);
    FinishRecordsShow(f.threadTasks, s.tasks, s.active.Keys, o);
    FinishQueueShows(f.queue, f.threadTasks, s.queue, o);
    FinishHeldShows(f.held, s.workers, f.threadTasks, f.queue, w, o);
  }

  /** Nobody is inside `unRegisterThread`, and its task is complete on both sides or on neither. */
  lemma PresentShown(f: Fields, s: State, id: nat)
    requires Shown(f, s)
    ensures s.marking.None? && (id in f.threadTasks <==> id in s.tasks)
    ensures id in f.threadTasks ==> (AllPresent(f.threadTasks[id]) <==> AllPresent(s.tasks[id]))
  {
  }

  /** What a worker holds is what it calls. */
  lemma HeldShown(f: Fields, s: State, w: nat, o: Overlapped)
    requires Shown(f, s) && w < |f.held| && f.held[w] == Some(o)
    ensures s.marking.None? && w < |s.workers| && s.workers[w] == Calling(Name(o)) && o in Allocated(f.threadTasks)
  {
  }

  lemma PointeesShown(f: Fields, s: State, id: nat)
    requires Shown(f, s) && id in f.threadTasks
    ensures forall o :: o in Allocated(f.threadTasks) ==>
      (o.taskId == id <==> o in Pointees(f.threadTasks[id]))
  {
  }

  lemma UnregisterShown(f: Fields, s: State, id: nat)
    requires Shown(f, s)
    ensures Shown(f, Unregistered(s, id))
  {
    assert Unregistered(s, id).active.Keys == s.active.Keys;
  }

  class ThreadPool {
    const threadSums: nat
    var threadTaskId: nat
    var threadTasks: map<nat, seq<Option<Overlapped>>>
    var queue: seq<Overlapped>   // the completion queue
    ghost var state: State                     // what the pool shows of the protocol
    ghost var held: seq<Option<Overlapped>>    // what each worker has received

    ghost function View(): Fields
      reads this
    {
      Fields(threadTaskId, threadTasks, queue, held)
    }

    /** The pool shows a state that some execution of the protocol reaches. */
    ghost predicate Valid()
      reads this, Allocated(threadTasks)
    {
      && Reached(state) && |held| == threadSums && |state.workers| == threadSums
      && Shown(View(), state)
      && forall o :: o in Allocated(threadTasks) ==>
           Name(o) in state.active && (state.active[Name(o)] <==> o.taskState != 0)
    }

    constructor (threadSums: nat)
      ensures Valid() && Initial(state)
      ensures this.threadSums == threadSums && threadTaskId == 0 && threadTasks == map[] && queue == []
    {
      this.threadSums := threadSums;
      threadTaskId := 0;
      threadTasks := map[];
      queue := [];
      state := State(0, map[], map[], multiset{}, seq(threadSums, _ => Idle), map[], None, map[], {}, {});
      held := seq(threadSums, _ => None);
      new;
      InitialIsReached(state);
    }

    /** The loop that allocates and posts the records. */
    method PostRecords(id: nat, concurrency: nat) returns (pOvs: seq<Option<Overlapped>>, ghost mine: seq<Overlapped>)
      modifies `queue
      ensures |pOvs| == concurrency && FreshSlots(pOvs, id, mine) && queue == old(queue) + mine
      ensures forall k :: 0 <= k < |mine| ==> fresh(mine[k]) && mine[k].taskState == 1
    {
      pOvs, mine := [], [];
      for i := 0 to concurrency
        invariant |pOvs| == i && FreshSlots(pOvs, id, mine) && queue == old(queue) + mine
        invariant forall k :: 0 <= k < i ==> fresh(mine[k]) && mine[k].taskState == 1
      {
        var pov := new Overlapped(id, i);
        pOvs := pOvs + [Some(pov)];
        mine := mine + [pov];
        queue := queue + [pov];
      }
    }

    method RegisterThread(requested: nat) returns (id: nat)
      requires Valid()
      modifies this
      ensures Valid()
      ensures var c := Granted(threadSums, requested);
        && state == (if c == 0 then old(state) else Registered(old(state), c))
        && id == (if c == 0 then 0 else threadTaskId)
        && old(queue) <= queue && held == old(held)
        && threadTasks == if c == 0 then old(threadTasks) else old(threadTasks)[id := threadTasks[id]]
      ensures var all := requested == CONCURRENCY_MAX;
        if (all && threadSums > 0) || (!all && 0 < requested <= threadSums)
        then var n := if all then threadSums else requested;
             && id == old(threadTaskId) + 1 && id in threadTasks && |threadTasks[id]| == n
             && |queue| == |old(queue)| + n
        else id == 0 && state == old(state) && threadTasks == old(threadTasks) && queue == old(queue)
    {
      hide Shown, Reached, FreshSlots;
      var concurrency := if requested == CONCURRENCY_MAX then threadSums else requested;
      if concurrency == 0 || concurrency > threadSums {
        return 0;
      }
      id := threadTaskId + 1;
      ghost var f, s := View(), state;
      threadTaskId := id;
      var pOvs;
      ghost var mine;
      pOvs, mine := PostRecords(id, concurrency);
      threadTasks := threadTasks[id := pOvs];
      state := Registered(state, concurrency);
      RegisterShown(f, s, pOvs, mine);
      PresentShown(f, s, id);
      RegisteredIsReached(s, requested);
    }

    /** A worker receives the record at the head of the completion queue. */
    method Receive(ghost w: nat) returns (pIoov: Overlapped)
      requires Valid() && queue != [] && w < threadSums && held[w].None?
      modifies `queue, `state, `held
      ensures Valid() && pIoov == old(queue[0]) && queue == old(queue[1..])
      ensures held == old(held)[w := Some(pIoov)]
      ensures state == Received(old(state), w, Name(pIoov))
    {
      hide Shown, Reached, Allocated;
      ReceiveShown(View(), state, w);
      ReceivedIsReached(state, w, Name(queue[0]));
      pIoov := queue[0];
      queue := queue[1..];
      held := held[w := Some(pIoov)];
      state := Received(state, w, Name(pIoov));
    }

    /** No answer stands for going through NULL, after which nothing is promised. */
    method UnRegisterThread(id: nat) returns (ok: Option<bool>)
      requires Valid()
      modifies `state, if id in threadTasks then Pointees(threadTasks[id]) else {}
      ensures ok.None? <==> id in threadTasks && !AllPresent(threadTasks[id])
      ensures ok.Some? ==>
        && Valid() && (ok.value <==> id in threadTasks)
        && state == if ok.value then Unregistered(old(state), id) else old(state)
    {
      hide Shown, Reached;
      if id !in threadTasks {
        return Some(false);
      }
      var slots := threadTasks[id];
      PointeesShown(View(), state, id);
      for i := 0 to |slots|
        invariant forall k :: 0 <= k < i ==> slots[k].Some? && slots[k].value.taskState == 0
        invariant state == old(state)
        invariant forall o :: o in Allocated(threadTasks) && o !in Pointees(slots) ==>
          o.taskState == old(o.taskState)
      {
        if slots[i].None? {
          return None;
        }
        slots[i].value.taskState := 0;
      }
      UnregisterShown(View(), state, id);
      PresentShown(View(), state, id);
      UnregisteredIsReached(state, id);
      state := Unregistered(state, id);
      return Some(true);
    }

    /** The bookkeeping under the mutex; deleting `pIoov` is emptying its slot. */
    method FinishRecord(pIoov: Overlapped) returns (found: bool)
      modifies this`threadTasks
      ensures found <==> pIoov.taskId in old(threadTasks)
      ensures threadTasks
           == if found then AfterFinish(old(threadTasks), pIoov.taskId, pIoov) else old(threadTasks)
    {
      var taskId := pIoov.taskId;
      if taskId !in threadTasks {
        return false;
      }
      var was := threadTasks[taskId];
      var slots := was;
      var state := 0;
      for i := 0 to |slots|
        invariant |slots| == |was|
        invariant forall k :: 0 <= k < |was| ==> slots[k] == if k < i then Cleared(was, pIoov)[k] else was[k]
        invariant state == CountPresent(slots[..i]) && threadTasks == old(threadTasks)
      {
        assert slots[..i] == Cleared(was, pIoov)[..i];
        if slots[i] == Some(pIoov) {
          slots := slots[i := None];
        }
        assert slots[..i] == Cleared(was, pIoov)[..i];
        CountOneMore(slots[..i], slots[i]);
        assert slots[..i + 1] == slots[..i] + [slots[i]];
        if slots[i] != None {
          state := state + 1;
        }
      }
      assert slots == Cleared(was, pIoov) && slots == slots[..|slots|];
      NonePresent(slots);
      threadTasks := if state == 0 then threadTasks - {taskId} else threadTasks[taskId := slots];
      return true;
    }

    /** Posts the record to the completion queue again. */
    method Repost(pIoov: Overlapped, ghost w: nat)
      requires Valid() && w < threadSums && held[w] == Some(pIoov) && pIoov.taskState != 0
      modifies `queue, `state, `held
      ensures Valid() && queue == old(queue) + [pIoov] && state == Reposted(old(state), w, Name(pIoov))
      ensures held == old(held)[w := None]
    {
      hide Shown, Reached, Allocated;
      RepostShown(View(), state, w, pIoov);
      HeldShown(View(), state, w, pIoov);
      CalledBackIsReached(state, w);
      queue := queue + [pIoov];
      held := held[w := None];
      state := Reposted(state, w, Name(pIoov));
    }

    /** Finishes the record. */
    method FinishHeld(pIoov: Overlapped, ghost w: nat) returns (found: bool)
      requires Valid() && w < threadSums && held[w] == Some(pIoov) && pIoov.taskState == 0
      modifies `threadTasks, `state, `held
      ensures Valid() && found && state == Finished(old(state), w, Name(pIoov))
      ensures held == old(held)[w := None]
      ensures threadTasks == AfterFinish(old(threadTasks), pIoov.taskId, pIoov)
    {
      hide Shown, Reached;
      FinishShown(View(), state, w, pIoov);
      HeldShown(View(), state, w, pIoov);
      CalledBackIsReached(state, w);
      found := FinishRecord(pIoov);
      held := held[w := None];
      state := Finished(state, w, Name(pIoov));
    }

    /** What a worker does after `fn` has returned. */
    method CallBackFunction(pIoov: Overlapped, ghost w: nat) returns (found: bool)
      requires Valid() && w < threadSums && held[w] == Some(pIoov)
      modifies this
      ensures Valid() && found && held == old(held)[w := None]
      ensures state == if pIoov.taskState != 0 then Reposted(old(state), w, Name(pIoov))
                       else Finished(old(state), w, Name(pIoov))
      ensures queue == old(queue) + if pIoov.taskState != 0 then [pIoov] else []
      ensures threadTasks
           == if pIoov.taskState != 0 then old(threadTasks)
              else AfterFinish(old(threadTasks), pIoov.taskId, pIoov)
    {
      hide Shown, Reached;
      if pIoov.taskState == 0 {
        found := FinishHeld(pIoov, w);
      } else {
        Repost(pIoov, w);
        found := true;
      }
    }
  }

  /** The map after the given records of a task finished one after another. */
  function FinishAll<R(==)>(tasks: map<nat, seq<Option<R>>>, t: nat, done: seq<R>): map<nat, seq<Option<R>>> {
    if done == [] then tasks
    else
      var before := FinishAll(tasks, t, done[..|done| - 1]);
      if t in before then AfterFinish(before, t, done[|done| - 1]) else before
  }

  function Remaining<R(==)>(slots: seq<Option<R>>, done: seq<R>): (left: seq<Option<R>>)
    ensures |left| == |slots|
  {
    seq(|slots|, i requires 0 <= i < |slots| =>
      if slots[i].Some? && slots[i].value in done then None else slots[i])
  }

  lemma LastOneOut<R>(slots: seq<Option<R>>, order: seq<R>, k: nat)
    requires 0 < k <= |order| && AllPresent(slots)
    requires forall i, j :: 0 <= i < j < |order| ==> order[i] != order[j]
    requires forall i :: 0 <= i < |slots| ==> slots[i].value in order
    requires forall i :: 0 <= i < |order| ==> Some(order[i]) in slots
    ensures Cleared(Remaining(slots, order[..k - 1]), order[k - 1]) == Remaining(slots, order[..k])
    ensures SomePresent(Remaining(slots, order[..k])) <==> k < |order|
  {
    assert order[..k] == order[..k - 1] + [order[k - 1]];
    if k < |order| {
      var i :| 0 <= i < |slots| && slots[i] == Some(order[k]);
      assert Remaining(slots, order[..k])[i].Some?;
    } else {
      assert order[..k] == order;
    }
  }

  /** Finishing all the records of a task, in any order, empties the map of it; until then it stays. */
  lemma {:induction false} EntryGoesWithLastRecord<R>(
    tasks: map<nat, seq<Option<R>>>, t: nat, order: seq<R>, k: nat)
    requires t in tasks && AllPresent(tasks[t]) && k <= |order|
    requires forall i, j :: 0 <= i < j < |order| ==> order[i] != order[j]
    requires forall i :: 0 <= i < |tasks[t]| ==> tasks[t][i].value in order
    requires forall i :: 0 <= i < |order| ==> Some(order[i]) in tasks[t]
    ensures t in FinishAll(tasks, t, order[..k]) <==> k < |order| || order == []
    ensures t in FinishAll(tasks, t, order[..k]) ==>
      FinishAll(tasks, t, order[..k]) == tasks[t := Remaining(tasks[t], order[..k])]
  {
    var done := order[..k];
    if k == 0 {
      assert done == [] && Remaining(tasks[t], done) == tasks[t];
    } else {
      EntryGoesWithLastRecord(tasks, t, order, k - 1);
      assert order[..k][..k - 1] == order[..k - 1];
      LastOneOut(tasks[t], order, k);
    }
  }
}
