/**
 The request queue of the HTTP client: one producer (`ReqData`) and one consumer
 (`ExecuteThread`) share a ring without a lock. First the two calls by
 themselves, then every interleaving of their accesses to the shared indices.
 */
module HttpClient {
  import opened Bits
  import opened SafeArray
  import opened Sequences

  lemma ThousandRoundsTo1024(size: nat)
    requires RoundedTo(1000, size)
    ensures size == 1024
  {
    assert Pow2(8) == 256 && Pow2(9) == 512 && Pow2(10) == 1024;
    assert IsPow2(1024);
    NextPow2(size, 9);
  }

  class HttpClientBoost<T(0)> {
    const reqQueue: SafeArray<T>

    constructor (zero: T)
      ensures reqQueue.Valid() && fresh(reqQueue) && fresh(reqQueue.data)
      ensures reqQueue.Contents() == [] && reqQueue.arraySize == 1024
    {
      reqQueue := new SafeArray<T>(1000, zero);
      new;
      ThousandRoundsTo1024(reqQueue.arraySize);
    }

    method ReqData(t: T) returns (accepted: bool)
      requires reqQueue.Valid()
      modifies reqQueue, reqQueue.data
      ensures reqQueue.Valid()
      ensures accepted <==> |old(reqQueue.Contents())| < reqQueue.arraySize - 1
      ensures reqQueue.Contents() == old(reqQueue.Contents()) + if accepted then [t] else []
    {
      accepted := reqQueue.HasSpace();
      if accepted {
        reqQueue.AddItem(t);
      }
    }

    /** One turn of the loop of `ExecuteThread`, up to the request it serves; the ring's zero stands for NULL. */
    method ExecuteTurn() returns (pData: T)
      requires reqQueue.Valid()
      modifies reqQueue`popIdx
      ensures reqQueue.Valid()
      ensures old(reqQueue.Contents()) == [] ==> pData == reqQueue.zero && reqQueue.Contents() == []
      ensures old(reqQueue.Contents()) != [] ==> [pData] + reqQueue.Contents() == old(reqQueue.Contents())
    {
      pData := reqQueue.zero;
      var some := reqQueue.HasItem();
      if some {
        pData := reqQueue.GetItem();
      }
    }
  }

  // ----- The two threads, one shared access at a time -----

  /** Where the producer is inside `ReqData(t)`. */
  datatype Producer<T> =
    | Ready
    | Storing(t: T)      // HasSpace was true
    | Publishing(t: T)   // the slot is written, m_PushIdx is not

  /** Where the consumer is inside one turn of the loop of `ExecuteThread`. */
  datatype Consumer =
    | Polling
    | Entering           // HasItem was true in the loop
    | Loading            // HasItem was true again in GetItem
    | Advancing(i: nat)  // m_PopIdx was loaded
    | Reading(i: nat)    // m_PopIdx has moved on, the slot is not read yet

  /** The shared ring, both threads, and what was accepted and returned so far. */
  datatype State<T> = State(
    slots: seq<T>, push: nat, pop: nat,
    producer: Producer<T>, consumer: Consumer,
    accepted: seq<T>, returned: seq<T>)

  datatype Action<T> =
    | Request(t: T) | Store | Publish
    | Poll | Recheck | Load | Advance | Read

  predicate Enabled<T>(s: State<T>, a: Action<T>) {
    match a
    case Request(_) => s.producer.Ready?
    case Store => s.producer.Storing?
    case Publish => s.producer.Publishing?
    case Poll => s.consumer.Polling?
    case Recheck => s.consumer.Entering?
    case Load => s.consumer.Loading?
    case Advance => s.consumer.Advancing?
    case Read => s.consumer.Reading?
  }

  /** An index read or written by a step; the class keeps both below the size. */
  predicate InRange<T>(s: State<T>) {
    && s.push < |s.slots|
    && s.pop < |s.slots|
    && (s.consumer.Reading? ==> s.consumer.i < |s.slots|)
  }

  /** One step: at most one access to a location the other thread writes. */
  function Apply<T>(s: State<T>, a: Action<T>): State<T>
    requires InRange(s) && Enabled(s, a)
  {
    match a
    case Request(t) =>
      if Next(s.push, |s.slots| - 1) != s.pop then s.(producer := Storing(t)) else s
    case Store => s.(slots := s.slots[s.push := s.producer.t], producer := Publishing(s.producer.t))
    case Publish =>
      s.(push := Next(s.push, |s.slots| - 1), producer := Ready, accepted := s.accepted + [s.producer.t])
    case Poll => if s.push != s.pop then s.(consumer := Entering) else s
    case Recheck => if s.push != s.pop then s.(consumer := Loading) else s.(consumer := Polling)
    case Load => s.(consumer := Advancing(s.pop))
    case Advance => s.(pop := Next(s.pop, |s.slots| - 1), consumer := Reading(s.consumer.i))
    case Read => s.(consumer := Polling, returned := s.returned + [s.slots[s.consumer.i]])
  }

  ghost predicate Initial<T>(s: State<T>) {
    && RingSize(|s.slots|)
    && s.push == s.pop == 0
    && s.producer == Ready && s.consumer == Polling
    && s.accepted == s.returned == []
  }

  /** `trace` is an interleaving of the two threads from the start. */
  ghost predicate Interleaving<T>(trace: seq<State<T>>, schedule: seq<Action<T>>) {
    && |trace| == |schedule| + 1
    && Initial(trace[0])
    && forall k :: 0 <= k < |schedule| ==>
         InRange(trace[k]) && Enabled(trace[k], schedule[k]) && trace[k + 1] == Apply(trace[k], schedule[k])
  }

  /** The item whose slot the consumer has already given back but not yet read. */
  function InFlight<T>(s: State<T>): seq<T>
    requires InRange(s)
  {
    if s.consumer.Reading? then [s.slots[s.consumer.i]] else []
  }

  ghost predicate Inv<T>(s: State<T>) {
    && RingSize(|s.slots|)
    && InRange(s)
    && s.accepted == s.returned + InFlight(s) + Items(s.slots, s.push, s.pop)
    && (!s.producer.Ready? ==> |Items(s.slots, s.push, s.pop)| < |s.slots| - 1)
    && (s.producer.Publishing? ==> s.slots[s.push] == s.producer.t)
    && (s.consumer.Entering? || s.consumer.Loading? || s.consumer.Advancing? ==> s.push != s.pop)
    && (s.consumer.Advancing? ==> s.consumer.i == s.pop)
    && (s.consumer.Reading? ==> Next(s.consumer.i, |s.slots| - 1) == s.pop)
  }

  /** While the producer may write, its slot is not the one about to be read. */
  lemma PendingSlotIsSafe<T>(s: State<T>)
    requires Inv(s) && s.consumer.Reading? && !s.producer.Ready?
    ensures s.push != s.consumer.i
  {
    NextWraps(s.consumer.i, |s.slots|);
  }

  /** Publishing a stored item appends it to what was accepted and to the queue. */
  lemma Published<T>(slots: seq<T>, push: nat, pop: nat, front: seq<T>, accepted: seq<T>)
    requires RingSize(|slots|) && push < |slots| && pop < |slots| && |Items(slots, push, pop)| < |slots| - 1
    requires accepted == front + Items(slots, push, pop)
    ensures Next(push, |slots| - 1) < |slots|
    ensures accepted + [slots[push]] == front + Items(slots, Next(push, |slots| - 1), pop)
  {
    PushAppends(slots, push, pop, slots[push]);
    assert slots[push := slots[push]] == slots;
    Associative(front, Items(slots, push, pop), [slots[push]]);
  }

  /** Advancing the pop index moves the oldest item out of the queue. */
  lemma Advanced<T>(slots: seq<T>, push: nat, pop: nat, returned: seq<T>, accepted: seq<T>)
    requires RingSize(|slots|) && push < |slots| && pop < |slots| && push != pop
    requires accepted == returned + Items(slots, push, pop)
    ensures Next(pop, |slots| - 1) < |slots|
    ensures accepted == returned + [slots[pop]] + Items(slots, push, Next(pop, |slots| - 1))
    ensures |Items(slots, push, Next(pop, |slots| - 1))| < |Items(slots, push, pop)|
  {
    PopRemoves(slots, push, pop);
    Associative(returned, [slots[pop]], Items(slots, push, Next(pop, |slots| - 1)));
  }

  /** A request is turned away exactly when the queue holds one item less than the ring has slots. */
  lemma RequestIsExact<T>(s: State<T>, t: T)
    requires Inv(s) && Enabled(s, Request(t))
    ensures Apply(s, Request(t)).producer == Ready <==> |Items(s.slots, s.push, s.pop)| == |s.slots| - 1
  {
    PushAppends(s.slots, s.push, s.pop, t);
  }

  lemma RequestKeepsInv<T>(s: State<T>, t: T)
    requires Inv(s) && Enabled(s, Request(t))
    ensures Inv(Apply(s, Request(t)))
  {
    RequestIsExact(s, t);
  }

  lemma StoreKeepsInv<T>(s: State<T>)
    requires Inv(s) && Enabled(s, Store)
    ensures Inv(Apply(s, Store))
  {
    WriteOutside(s.slots, s.push, s.pop, s.producer.t);
    if s.consumer.Reading? {
      PendingSlotIsSafe(s);
    }
  }

  lemma PublishKeepsInv<T>(s: State<T>)
    requires Inv(s) && Enabled(s, Publish)
    ensures Inv(Apply(s, Publish))
  {
    hide RingSize, Next;
    Published(s.slots, s.push, s.pop, s.returned + InFlight(s), s.accepted);
    PushAppends(s.slots, s.push, s.pop, s.producer.t);
  }

  lemma AdvanceKeepsInv<T>(s: State<T>)
    requires Inv(s) && Enabled(s, Advance)
    ensures Inv(Apply(s, Advance))
  {
    assert s.returned + [] == s.returned;
    Advanced(s.slots, s.push, s.pop, s.returned, s.accepted);
    assert InFlight(Apply(s, Advance)) == [s.slots[s.pop]];
  }

  lemma ReadKeepsInv<T>(s: State<T>)
    requires Inv(s) && Enabled(s, Read)
    ensures Inv(Apply(s, Read))
  {
    var n := Apply(s, Read);
    assert n.returned + InFlight(n) == s.returned + InFlight(s);
  }

  lemma CheckKeepsInv<T>(s: State<T>, a: Action<T>)
    requires Inv(s) && Enabled(s, a) && (a.Poll? || a.Recheck? || a.Load?)
    ensures Inv(Apply(s, a))
  {
    assert InFlight(Apply(s, a)) == InFlight(s);
  }

  lemma StepKeepsInv<T>(s: State<T>, a: Action<T>)
    requires Inv(s) && Enabled(s, a)
    ensures Inv(Apply(s, a))
  {
    match a
    case Request(t) => RequestKeepsInv(s, t);
    case Store => StoreKeepsInv(s);
    case Publish => PublishKeepsInv(s);
    case Advance => AdvanceKeepsInv(s);
    case Read => ReadKeepsInv(s);
    case _ => CheckKeepsInv(s, a);
  }

  lemma {:induction false} InvHolds<T>(trace: seq<State<T>>, schedule: seq<Action<T>>, k: nat)
    requires Interleaving(trace, schedule) && k < |trace|
    ensures Inv(trace[k])
  {
    if k > 0 {
      InvHolds(trace, schedule, k - 1);
      StepKeepsInv(trace[k - 1], schedule[k - 1]);
    }
  }

  /**
   In every interleaving and at every moment, nothing is lost, duplicated,
   reordered or torn: what was accepted is what was returned, then the item
   being read, then the queue.
   */
  lemma NothingLostOrReordered<T>(trace: seq<State<T>>, schedule: seq<Action<T>>, k: nat)
    requires Interleaving(trace, schedule) && k < |trace|
    ensures InRange(trace[k])
    ensures trace[k].accepted
         == trace[k].returned + InFlight(trace[k]) + Items(trace[k].slots, trace[k].push, trace[k].pop)
    ensures trace[k].returned <= trace[k].accepted
  {
    InvHolds(trace, schedule, k);
  }

  /** The requests that passed their space check, read off the schedule. */
  function Admitted<T>(trace: seq<State<T>>, schedule: seq<Action<T>>, k: nat): seq<T>
    requires k <= |schedule| < |trace|
  {
    if k == 0 then []
    else
      var a := schedule[k - 1];
      Admitted(trace, schedule, k - 1) + (if a.Request? && !trace[k].producer.Ready? then [a.t] else [])
  }

  /** How many items the consumer has read. */
  function Reads<T>(schedule: seq<Action<T>>, k: nat): nat
    requires k <= |schedule|
  {
    if k == 0 then 0 else Reads(schedule, k - 1) + if schedule[k - 1].Read? then 1 else 0
  }

  /** The request that the producer is about to publish. */
  function InHand<T>(s: State<T>): seq<T> {
    if s.producer.Ready? then [] else [s.producer.t]
  }

  lemma StepAdmits<T>(s: State<T>, a: Action<T>)
    requires InRange(s) && Enabled(s, a)
    ensures var n := Apply(s, a);
      && n.accepted + InHand(n)
         == s.accepted + InHand(s) + (if a.Request? && !n.producer.Ready? then [a.t] else [])
      && |n.returned| == |s.returned| + if a.Read? then 1 else 0
  {
    hide Next;
  }

  lemma InitiallyNone<T>(s: State<T>)
    requires Initial(s)
    ensures s.accepted + InHand(s) == []
  {
  }

  /** Every admitted request, and nothing else, is accepted in its turn, and every read returns one. */
  lemma {:induction false} AdmittedAreAccepted<T>(trace: seq<State<T>>, schedule: seq<Action<T>>, k: nat)
    requires Interleaving(trace, schedule) && k <= |schedule|
    ensures Admitted(trace, schedule, k) == trace[k].accepted + InHand(trace[k])
    ensures |trace[k].returned| == Reads(schedule, k)
  {
    hide InHand;
    if k > 0 {
      AdmittedAreAccepted(trace, schedule, k - 1);
      StepAdmits(trace[k - 1], schedule[k - 1]);
    } else {
      InitiallyNone(trace[0]);
    }
  }

  /** What the consumer returned is a prefix of the admitted requests, one for each of its reads. */
  lemma ReturnedArePrefix<T>(trace: seq<State<T>>, schedule: seq<Action<T>>, k: nat)
    requires Interleaving(trace, schedule) && k <= |schedule|
    ensures Reads(schedule, k) <= |Admitted(trace, schedule, k)|
    ensures trace[k].returned == Admitted(trace, schedule, k)[..Reads(schedule, k)]
  {
    NothingLostOrReordered(trace, schedule, k);
    AdmittedAreAccepted(trace, schedule, k);
  }

  /** `GetItem` moves the pop index before it reads: still, no store hits the slot whose read is pending. */
  lemma StoreMissesPendingRead<T>(trace: seq<State<T>>, schedule: seq<Action<T>>, k: nat)
    requires Interleaving(trace, schedule) && k < |schedule|
    requires schedule[k] == Store && trace[k].consumer.Reading?
    ensures trace[k].push != trace[k].consumer.i
    ensures trace[k + 1].slots[trace[k].consumer.i] == trace[k].slots[trace[k].consumer.i]
  {
    InvHolds(trace, schedule, k);
    PendingSlotIsSafe(trace[k]);
  }

  /**
   The outcome of a step that can fail: the empty branch of `GetItem` is never
   taken by the loop, and a request is turned away exactly when the queue holds
   one item less than the ring has slots.
   */
  lemma FailedChecksAreExact<T>(trace: seq<State<T>>, schedule: seq<Action<T>>, k: nat)
    requires Interleaving(trace, schedule) && k < |schedule|
    ensures InRange(trace[k])
    ensures schedule[k] == Recheck ==> trace[k + 1].consumer == Loading
    ensures schedule[k].Request? ==>
      (trace[k + 1].producer == Ready <==>
       |Items(trace[k].slots, trace[k].push, trace[k].pop)| == |trace[k].slots| - 1)
  {
    InvHolds(trace, schedule, k);
    if schedule[k].Request? {
      RequestIsExact(trace[k], schedule[k].t);
    }
  }

  // ----- A call that no access of the other thread interrupts -----

  function QueueOf<T>(s: State<T>): seq<T>
    requires InRange(s)
  {
    Items(s.slots, s.push, s.pop)
  }

  /** The steps of the producer add up to what `ReqData` promises. */
  lemma ReqDataAlone<T>(s: State<T>, t: T)
    requires Inv(s) && s.producer.Ready?
    ensures |QueueOf(s)| == |s.slots| - 1 ==> Apply(s, Request(t)) == s
    ensures |QueueOf(s)| < |s.slots| - 1 ==>
      && Apply(s, Request(t)).producer.Storing?
      && var n := Apply(Apply(Apply(s, Request(t)), Store), Publish);
         && InRange(n) && n.producer.Ready? && n.consumer == s.consumer
         && QueueOf(n) == QueueOf(s) + [t] && n.accepted == s.accepted + [t]
  {
    PushAppends(s.slots, s.push, s.pop, t);
  }

  /** The steps of the consumer add up to what `ExecuteTurn` promises. */
  lemma ExecuteTurnAlone<T>(s: State<T>)
    requires Inv(s) && s.consumer.Polling?
    ensures QueueOf(s) == [] ==> Apply(s, Poll) == s
    ensures QueueOf(s) != [] ==>
      && Apply(s, Poll).consumer.Entering? && Apply(Apply(s, Poll), Recheck).consumer.Loading?
      && var a := Apply(Apply(Apply(Apply(s, Poll), Recheck), Load), Advance);
         && InRange(a)
         && var n := Apply(a, Read);
            && InRange(n) && n.consumer.Polling? && n.producer == s.producer
            && n.returned == s.returned + [QueueOf(s)[0]] && QueueOf(n) == QueueOf(s)[1..]
  {
    PopRemoves(s.slots, s.push, s.pop);
  }
}
