/**
 Each call of the thread pool as a run of protocol steps that no other thread
 interrupts: the effect is the one its method promises.
 */
module PoolCalls {
  import opened Options
  import opened PoolTable
  import opened PoolProtocol
  import opened PoolGuarantees

  /** The first `n` records of a task. */
  function Records(t: TaskId, n: nat): (records: seq<Record>)
    ensures |records| == n
    ensures forall i :: 0 <= i < n ==> records[i] == Record(t, i)
  {
    seq(n, i requires i >= 0 => Record(t, i))
  }

  /** `taskState` is one for each of them. */
  function Started(t: TaskId, n: nat): map<Record, bool> {
    map r | r in Records(t, n) :: true
  }

  function Pointers(t: TaskId, n: nat): seq<Option<Record>> {
    seq(n, i requires i >= 0 => Some(Record(t, i)))
  }

  // ----- registerThread -----

  /** The new id is drawn, and `n` of the `c` records are posted. */
  ghost function Posted(s: State, c: nat, n: nat): State {
    var t := s.lastId + 1;
    s.(lastId := t, sizes := s.sizes[t := c],
       registering := s.registering[t := Registration(c, n)],
       active := s.active + Started(t, n),
       queue := s.queue + multiset(Records(t, n)))
  }

  lemma PostRecord(active: map<Record, bool>, queue: multiset<Record>, t: TaskId, n: nat)
    ensures (active + Started(t, n))[Record(t, n) := true]
         == active + Started(t, n + 1)
    ensures queue + multiset(Records(t, n)) + multiset{Record(t, n)} == queue + multiset(Records(t, n + 1))
  {
    assert Records(t, n + 1) == Records(t, n) + [Record(t, n)];
  }

  lemma PostNext(s: State, c: nat, n: nat)
    requires n < c
    ensures Leads(Posted(s, c, n), Post(s.lastId + 1), Posted(s, c, n + 1))
  {
    PostRecord(s.active, s.queue, s.lastId + 1, n);
    var t := s.lastId + 1;
    assert s.registering[t := Registration(c, n)][t := Registration(c, n + 1)]
        == s.registering[t := Registration(c, n + 1)];
  }

  lemma PostAll(s: State, c: nat) returns (trace: seq<State>, schedule: seq<Action>)
    ensures Steps(trace, schedule)
    ensures trace[0] == Posted(s, c, 0) && trace[|schedule|] == Posted(s, c, c)
  {
    trace := seq(c + 1, i requires i >= 0 => Posted(s, c, i));
    schedule := seq(c, i => Post(s.lastId + 1));
    forall n | 0 <= n < c ensures Leads(trace[n], schedule[n], trace[n + 1]) {
      PostNext(s, c, n);
    }
  }

  /** A new task with `c` records: all of them queued, active and in the map. */
  ghost function Registered(s: State, c: nat): State {
    var t := s.lastId + 1;
    s.(lastId := t, sizes := s.sizes[t := c],
       active := s.active + Started(t, c),
       queue := s.queue + multiset(Records(t, c)),
       tasks := s.tasks[t := Pointers(t, c)])
  }

  lemma RegisterFirst(s: State, concurrency: nat)
    requires Granted(|s.workers|, concurrency) > 0
    ensures Leads(s, Register(concurrency), Posted(s, Granted(|s.workers|, concurrency), 0))
  {
    var c := Granted(|s.workers|, concurrency);
    assert multiset(Records(s.lastId + 1, 0)) == multiset{};
    assert Posted(s, c, 0).active == s.active;
  }

  lemma InsertLast(s: State, c: nat)
    requires s.marking.None? && s.lastId + 1 !in s.registering
    ensures Leads(Posted(s, c, c), Insert(s.lastId + 1), Registered(s, c))
  {
    var t := s.lastId + 1;
    var m := Apply(Posted(s, c, c), Insert(t));
    assert m.registering == s.registering;
    assert m.tasks[t] == Pointers(t, c);
  }

  lemma RegisterGranted(s: State, concurrency: nat) returns (trace: seq<State>, schedule: seq<Action>)
    requires Granted(|s.workers|, concurrency) > 0 && s.marking.None? && s.lastId + 1 !in s.registering
    ensures Steps(trace, schedule) && trace[0] == s
    ensures trace[|schedule|] == Registered(s, Granted(|s.workers|, concurrency))
  {
    var c := Granted(|s.workers|, concurrency);
    RegisterFirst(s, concurrency);
    var next, more := PostAll(s, c);
    Joined([s, next[0]], [Register(concurrency)], next, more);
    trace, schedule := [s, next[0]] + next[1..], [Register(concurrency)] + more;
    InsertLast(s, c);
    var last, a := Registered(s, c), Insert(s.lastId + 1);
    Extended(trace, schedule, a, last);
    trace, schedule := trace + [last], schedule + [a];
  }

  /** `registerThread`, when the request is granted; otherwise its one step changes nothing. */
  lemma RegisterAlone(s: State, concurrency: nat) returns (trace: seq<State>, schedule: seq<Action>)
    requires Inv(s) && s.marking.None?
    ensures Steps(trace, schedule) && trace[0] == s
    ensures var c := Granted(|s.workers|, concurrency);
      trace[|schedule|] == if c == 0 then s else Registered(s, c)
  {
    if Granted(|s.workers|, concurrency) == 0 {
      trace, schedule := [s, s], [Register(concurrency)];
    } else {
      trace, schedule := RegisterGranted(s, concurrency);
    }
  }

  lemma RegisteredIsReached(s: State, concurrency: nat)
    requires Reached(s) && s.marking.None?
    ensures var c := Granted(|s.workers|, concurrency);
      Reached(if c == 0 then s else Registered(s, c))
  {
    ReachedInv(s);
    var trace, schedule := RegisterAlone(s, concurrency);
    ReachedSteps(trace, schedule);
  }

  // ----- unRegisterThread -----

  /** `taskState` is zero for the first `n` records of the task. */
  function Zeroed(active: map<Record, bool>, t: TaskId, n: nat): map<Record, bool> {
    map r | r in active :: active[r] && !(r.task == t && r.slot < n)
  }

  ghost function MarkedUpTo(s: State, t: TaskId, n: nat): State {
    s.(marking := Some(Marking(t, n)), active := Zeroed(s.active, t, n))
  }

  /** The task is mapped with all of its records. */
  ghost predicate Whole(s: State, t: TaskId) {
    && t in s.tasks && s.tasks[t] == Pointers(t, |s.tasks[t]|)
    && (forall i :: 0 <= i < |s.tasks[t]| ==> Record(t, i) in s.active)
    && (forall r :: r in s.active && r.task == t ==> r.slot < |s.tasks[t]|)
  }

  lemma PresentIsWhole(s: State, t: TaskId)
    requires Slots(s.tasks, s.sizes, s.active.Keys) && Owners(s.registering, s.sizes, s.tasks.Keys, s.active.Keys)
    requires t in s.tasks && AllPresent(s.tasks[t])
    ensures Whole(s, t)
  {
    forall i | 0 <= i < |s.tasks[t]| ensures Record(t, i) in s.active && s.tasks[t][i] == Some(Record(t, i)) {
      assert s.tasks[t][i].Some?;
    }
  }

  lemma ZeroNext(active: map<Record, bool>, t: TaskId, n: nat)
    requires Record(t, n) in active
    ensures Zeroed(active, t, n)[Record(t, n) := false] == Zeroed(active, t, n + 1)
  {
  }

  lemma MarkNext(s: State, t: TaskId, n: nat)
    requires Whole(s, t) && n < |s.tasks[t]|
    ensures Leads(MarkedUpTo(s, t, n), Mark, MarkedUpTo(s, t, n + 1))
  {
    ZeroNext(s.active, t, n);
    assert s.tasks[t][n] == Some(Record(t, n));
  }

  lemma MarkAll(s: State, t: TaskId) returns (trace: seq<State>, schedule: seq<Action>)
    requires Whole(s, t)
    ensures Steps(trace, schedule)
    ensures trace[0] == MarkedUpTo(s, t, 0) && trace[|schedule|] == MarkedUpTo(s, t, |s.tasks[t]|)
  {
    trace := seq(|s.tasks[t]| + 1, i requires i >= 0 => MarkedUpTo(s, t, i));
    schedule := seq(|s.tasks[t]|, i => Mark);
    forall n | 0 <= n < |s.tasks[t]| ensures Leads(trace[n], schedule[n], trace[n + 1]) {
      MarkNext(s, t, n);
    }
  }

  /** No record of the task is active any more, and nothing else has changed. */
  ghost function Unregistered(s: State, t: TaskId): State {
    s.(active := map r | r in s.active :: s.active[r] && r.task != t, done := s.done + {t})
  }

  lemma StartMarking(s: State, t: TaskId)
    requires s.marking.None? && t in s.tasks && AllPresent(s.tasks[t])
    ensures Leads(s, StartUnregister(t), MarkedUpTo(s, t, 0))
  {
    assert Zeroed(s.active, t, 0) == s.active;
  }

  lemma EndMarking(s: State, t: TaskId)
    requires Whole(s, t) && s.marking.None?
    ensures Leads(MarkedUpTo(s, t, |s.tasks[t]|), EndUnregister, Unregistered(s, t))
  {
    assert Zeroed(s.active, t, |s.tasks[t]|) == Unregistered(s, t).active;
  }

  lemma UnregisterWhole(s: State, t: TaskId) returns (trace: seq<State>, schedule: seq<Action>)
    requires Whole(s, t) && AllPresent(s.tasks[t]) && s.marking.None?
    ensures Steps(trace, schedule) && trace[0] == s && trace[|schedule|] == Unregistered(s, t)
  {
    StartMarking(s, t);
    trace, schedule := [s, MarkedUpTo(s, t, 0)], [StartUnregister(t)];
    var next, more := MarkAll(s, t);
    Joined(trace, schedule, next, more);
    trace, schedule := trace + next[1..], schedule + more;
    EndMarking(s, t);
    Extended(trace, schedule, EndUnregister, Unregistered(s, t));
    trace, schedule := trace + [Unregistered(s, t)], schedule + [EndUnregister];
  }

  /** `unRegisterThread`, when its task is mapped with all its records; if it is not mapped, nothing changes. */
  lemma UnregisterAlone(s: State, t: TaskId) returns (trace: seq<State>, schedule: seq<Action>)
    requires Inv(s) && Enabled(s, StartUnregister(t)) && (t in s.tasks ==> AllPresent(s.tasks[t]))
    ensures Steps(trace, schedule) && trace[0] == s
    ensures trace[|schedule|] == if t in s.tasks then Unregistered(s, t) else s
  {
    if t !in s.tasks {
      trace, schedule := [s, s], [StartUnregister(t)];
    } else {
      PresentIsWhole(s, t);
      trace, schedule := UnregisterWhole(s, t);
    }
  }

  lemma UnregisteredIsReached(s: State, t: TaskId)
    requires Reached(s) && s.marking.None? && t in s.tasks && AllPresent(s.tasks[t])
    ensures Reached(Unregistered(s, t))
  {
    ReachedInv(s);
    var trace, schedule := UnregisterAlone(s, t);
    ReachedSteps(trace, schedule);
  }

  // ----- callBackFunction -----

  /** A worker has received the record and calls `fn`. */
  function Received(s: State, w: nat, r: Record): State
    requires w < |s.workers|
  {
    s.(queue := s.queue - multiset{r}, workers := s.workers[w := Calling(r)])
  }

  lemma ReceiveAlone(s: State, w: nat, r: Record)
    requires Inv(s) && Enabled(s, Take(w, r))
    ensures Leads(s, Take(w, r), Received(s, w, r))
  {
  }

  /** The record is queued again. */
  function Reposted(s: State, w: nat, r: Record): State
    requires w < |s.workers|
  {
    s.(workers := s.workers[w := Idle], queue := s.queue + multiset{r})
  }

  /** The record is freed, and the map entry goes with the last one. */
  function Finished(s: State, w: nat, r: Record): State
    requires w < |s.workers| && r.task in s.tasks
  {
    s.(workers := s.workers[w := Idle], tasks := AfterFinish(s.tasks, r.task, r),
       active := s.active - {r}, freed := s.freed + {r})
  }

  lemma RunOnce(s: State, w: nat, r: Record) returns (trace: seq<State>, schedule: seq<Action>)
    requires w < |s.workers| && s.workers[w] == Calling(r) && s.marking.None?
    requires r in s.active && (!s.active[r] ==> r.task in s.tasks)
    ensures Steps(trace, schedule) && trace[0] == s && |schedule| == 2
    ensures trace[2] == if s.active[r] then Reposted(s, w, r) else Finished(s, w, r)
  {
    var other := if s.active[r] then Reposting(r) else Finishing(r);
    assert s.workers[w := other][w := Idle] == s.workers[w := Idle];
    trace := [s, s.(workers := s.workers[w := other]), if s.active[r] then Reposted(s, w, r) else Finished(s, w, r)];
    schedule := [Return(w), if s.active[r] then Repost(w) else Finish(w)];
  }

  lemma OwnedWhenInactive(s: State, w: nat)
    requires Inv(s) && w < |s.workers| && !s.workers[w].Idle? && s.marking.None?
    ensures s.workers[w].r in s.active
    ensures !s.active[s.workers[w].r] ==> s.workers[w].r.task in s.tasks
  {
    assert Holds(s.workers[w], s.workers[w].r);
  }

  /** `callBackFunction` from the return of `fn` on. */
  lemma CallBackAlone(s: State, w: nat) returns (trace: seq<State>, schedule: seq<Action>)
    requires Inv(s) && w < |s.workers| && s.workers[w].Calling? && s.marking.None?
    ensures Steps(trace, schedule) && trace[0] == s && |schedule| == 2
    ensures var r := s.workers[w].r;
      && r in s.active && (!s.active[r] ==> r.task in s.tasks)
      && trace[2] == if s.active[r] then Reposted(s, w, r) else Finished(s, w, r)
  {
    OwnedWhenInactive(s, w);
    trace, schedule := RunOnce(s, w, s.workers[w].r);
  }

  lemma ReceivedIsReached(s: State, w: nat, r: Record)
    requires Reached(s) && Enabled(s, Take(w, r))
    ensures Reached(Received(s, w, r))
  {
    ReachedInv(s);
    ReceiveAlone(s, w, r);
    ReachedStep(s, Take(w, r), Received(s, w, r));
  }

  lemma CalledBackIsReached(s: State, w: nat)
    requires Reached(s) && s.marking.None? && w < |s.workers| && s.workers[w].Calling?
    ensures var r := s.workers[w].r;
      && r in s.active && (!s.active[r] ==> r.task in s.tasks)
      && Reached(if s.active[r] then Reposted(s, w, r) else Finished(s, w, r))
  {
    ReachedInv(s);
    var trace, schedule := CallBackAlone(s, w);
    ReachedSteps(trace, schedule);
  }
}
