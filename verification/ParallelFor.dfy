/**
 The parallel loop of `P1_main`: threads draw indices from a shared counter
 until it passes the number of samples. Each access to an atomic is one step.
 */
module ParallelFor {

  /** Where a thread is in the loop. */
  datatype Thread =
    | Drawing
    | Processing(index: nat)   // inside ProcessData(data[index])
    | Counting                 // ProcessData returned true, result not yet incremented
    | Stopped

  /** `calls` counts the calls of ProcessData per index. */
  datatype State = State(current: nat, result: nat, threads: seq<Thread>, calls: multiset<nat>)

  datatype Action = Draw(t: nat) | Finish(t: nat) | Count(t: nat)

  predicate Enabled(s: State, a: Action) {
    a.t < |s.threads| &&
    match a
    case Draw(t) => s.threads[t].Drawing?
    case Finish(t) => s.threads[t].Processing?
    case Count(t) => s.threads[t].Counting?
  }

  /** `ok` is what ProcessData answers for each sample. */
  function Apply(samples: nat, ok: nat -> bool, s: State, a: Action): State
    requires Enabled(s, a)
  {
    match a
    case Draw(t) =>
      var index := s.current;
      if index >= samples then s.(current := s.current + 1, threads := s.threads[t := Stopped])
      else s.(current := s.current + 1, threads := s.threads[t := Processing(index)],
              calls := s.calls + multiset{index})
    case Finish(t) =>
      s.(threads := s.threads[t := if ok(s.threads[t].index) then Counting else Drawing])
    case Count(t) => s.(result := s.result + 1, threads := s.threads[t := Drawing])
  }

  ghost predicate Initial(s: State) {
    && s.current == s.result == 0 && s.calls == multiset{}
    && forall t :: 0 <= t < |s.threads| ==> s.threads[t] == Drawing
  }

  ghost predicate Run(samples: nat, ok: nat -> bool, trace: seq<State>, schedule: seq<Action>) {
    && |trace| == |schedule| + 1
    && Initial(trace[0])
    && forall k :: 0 <= k < |schedule| ==>
         Enabled(trace[k], schedule[k]) && trace[k + 1] == Apply(samples, ok, trace[k], schedule[k])
  }

  /** How many of the first `n` samples are processed with success. */
  function Successes(ok: nat -> bool, n: nat): (c: nat)
    ensures c <= n
  {
    if n == 0 then 0 else Successes(ok, n - 1) + (if ok(n - 1) then 1 else 0)
  }

  function Min(a: nat, b: nat): nat {
    if a < b then a else b
  }

  // ----- Totals over the threads -----

  /** What is summed up: stopped threads, successes not yet counted, steps left before the next draw. */
  datatype Kind = Ended | Uncounted | Work

  function Share(kind: Kind, ok: nat -> bool, t: Thread): nat {
    match kind
    case Ended => if t.Stopped? then 1 else 0
    case Uncounted => if t.Counting? || (t.Processing? && ok(t.index)) then 1 else 0
    case Work => if t.Processing? then 2 else if t.Counting? then 1 else 0
  }

  function Total(kind: Kind, ok: nat -> bool, threads: seq<Thread>): nat {
    if threads == [] then 0
    else Total(kind, ok, threads[..|threads| - 1]) + Share(kind, ok, threads[|threads| - 1])
  }

  lemma {:induction false} TotalUpdate(kind: Kind, ok: nat -> bool, threads: seq<Thread>, t: nat, n: Thread)
    requires t < |threads|
    ensures Total(kind, ok, threads[t := n])
         == Total(kind, ok, threads) - Share(kind, ok, threads[t]) + Share(kind, ok, n)
  {
    var last := |threads| - 1;
    if t == last {
      assert threads[t := n][..last] == threads[..last];
    } else {
      assert threads[t := n][..last] == threads[..last][t := n];
      TotalUpdate(kind, ok, threads[..last], t, n);
    }
  }

  lemma {:induction false} TotalOfUniform(kind: Kind, ok: nat -> bool, threads: seq<Thread>, x: Thread)
    requires forall t :: 0 <= t < |threads| ==> threads[t] == x
    ensures Total(kind, ok, threads) == |threads| * Share(kind, ok, x)
  {
    if threads != [] {
      TotalOfUniform(kind, ok, threads[..|threads| - 1], x);
      assert |threads| * Share(kind, ok, x) == (|threads| - 1) * Share(kind, ok, x) + Share(kind, ok, x);
    }
  }

  // ----- Invariant -----

  ghost predicate Inv(samples: nat, ok: nat -> bool, s: State) {
    && (forall i: nat :: s.calls[i] == if i < Min(s.current, samples) then 1 else 0)
    && (forall t :: 0 <= t < |s.threads| && s.threads[t].Processing? ==> s.threads[t].index < samples)
    && s.current == Min(s.current, samples) + Total(Ended, ok, s.threads)
    && s.result + Total(Uncounted, ok, s.threads) == Successes(ok, Min(s.current, samples))
  }

  /** What can still happen: the draws left, and the steps already begun. */
  function Measure(samples: nat, ok: nat -> bool, s: State): int {
    3 * (samples + |s.threads| - s.current) + Total(Work, ok, s.threads)
  }

  /** A step that keeps the invariant and uses up some of the measure. */
  ghost predicate Progress(samples: nat, ok: nat -> bool, s: State, n: State) {
    Inv(samples, ok, n) && Measure(samples, ok, n) < Measure(samples, ok, s)
  }

  lemma TotalsUpdate(ok: nat -> bool, threads: seq<Thread>, t: nat, n: Thread)
    requires t < |threads|
    ensures forall kind ::
      Total(kind, ok, threads[t := n]) == Total(kind, ok, threads) - Share(kind, ok, threads[t]) + Share(kind, ok, n)
  {
    forall kind
      ensures Total(kind, ok, threads[t := n])
           == Total(kind, ok, threads) - Share(kind, ok, threads[t]) + Share(kind, ok, n)
    {
      TotalUpdate(kind, ok, threads, t, n);
    }
  }

  lemma DrawIndex(samples: nat, ok: nat -> bool, s: State, t: nat)
    requires Inv(samples, ok, s) && Enabled(s, Draw(t)) && s.current < samples
    ensures Progress(samples, ok, s, Apply(samples, ok, s, Draw(t)))
  {
    TotalsUpdate(ok, s.threads, t, Processing(s.current));
    assert Successes(ok, s.current + 1) == Successes(ok, s.current) + if ok(s.current) then 1 else 0;
  }

  lemma DrawStop(samples: nat, ok: nat -> bool, s: State, t: nat)
    requires Inv(samples, ok, s) && Enabled(s, Draw(t)) && s.current >= samples
    ensures Progress(samples, ok, s, Apply(samples, ok, s, Draw(t)))
  {
    TotalsUpdate(ok, s.threads, t, Stopped);
  }

  lemma FinishOrCount(samples: nat, ok: nat -> bool, s: State, a: Action)
    requires Inv(samples, ok, s) && Enabled(s, a) && !a.Draw?
    ensures Progress(samples, ok, s, Apply(samples, ok, s, a))
  {
    TotalsUpdate(ok, s.threads, a.t, Apply(samples, ok, s, a).threads[a.t]);
  }

  lemma Step(samples: nat, ok: nat -> bool, s: State, a: Action)
    requires Inv(samples, ok, s) && Enabled(s, a)
    ensures Progress(samples, ok, s, Apply(samples, ok, s, a))
  {
    if !a.Draw? {
      FinishOrCount(samples, ok, s, a);
    } else if s.current < samples {
      DrawIndex(samples, ok, s, a.t);
    } else {
      DrawStop(samples, ok, s, a.t);
    }
  }

  lemma {:induction false} StoppedBound(ok: nat -> bool, threads: seq<Thread>)
    ensures Total(Ended, ok, threads) <= |threads|
    ensures Total(Ended, ok, threads) == |threads| <==> forall t :: 0 <= t < |threads| ==> threads[t].Stopped?
    ensures (forall t :: 0 <= t < |threads| ==> threads[t].Stopped?) ==> Total(Uncounted, ok, threads) == 0
  {
    if threads != [] {
      var init := threads[..|threads| - 1];
      StoppedBound(ok, init);
      assert forall t :: 0 <= t < |init| ==> init[t] == threads[t];
    }
  }

  lemma {:induction false} RunInv(samples: nat, ok: nat -> bool, trace: seq<State>, schedule: seq<Action>, k: nat)
    requires Run(samples, ok, trace, schedule) && k < |trace|
    ensures Inv(samples, ok, trace[k])
    ensures |trace[k].threads| == |trace[0].threads|
    ensures Measure(samples, ok, trace[k]) + k <= 3 * (samples + |trace[0].threads|)
  {
    if k == 0 {
      TotalOfUniform(Ended, ok, trace[0].threads, Drawing);
      TotalOfUniform(Uncounted, ok, trace[0].threads, Drawing);
      TotalOfUniform(Work, ok, trace[0].threads, Drawing);
    } else {
      RunInv(samples, ok, trace, schedule, k - 1);
      Step(samples, ok, trace[k - 1], schedule[k - 1]);
    }
  }

  /**
   Under every schedule, an index is handed to ProcessData at most once, and
   only if it is the index of a sample; the counters stay within bounds.
   */
  lemma NoIndexTwice(samples: nat, ok: nat -> bool, trace: seq<State>, schedule: seq<Action>, k: nat, i: nat)
    requires Run(samples, ok, trace, schedule) && k < |trace|
    ensures trace[k].calls[i] == if i < samples && i < trace[k].current then 1 else 0
    ensures trace[k].current <= samples + |trace[0].threads|
    ensures trace[k].result <= samples
  {
    RunInv(samples, ok, trace, schedule, k);
    StoppedBound(ok, trace[k].threads);
  }

  /**
   When all threads have stopped, every sample was processed exactly once and
   the result counts the successes - exactly if there was a thread at all, or
   nothing to process.
   */
  lemma AllDone(samples: nat, ok: nat -> bool, trace: seq<State>, schedule: seq<Action>, k: nat)
    requires Run(samples, ok, trace, schedule) && k < |trace|
    requires forall t :: 0 <= t < |trace[k].threads| ==> trace[k].threads[t].Stopped?
    ensures trace[k].threads != [] || samples == 0
       <==> && (forall i: nat :: trace[k].calls[i] == if i < samples then 1 else 0)
            && trace[k].result == Successes(ok, samples)
            && trace[k].current == samples + |trace[k].threads|
  {
    RunInv(samples, ok, trace, schedule, k);
    StoppedBound(ok, trace[k].threads);
    if trace[k].threads == [] && samples > 0 {
      assert trace[k].current == 0;
    }
  }

  /** Every schedule is finite, and it can be continued until all threads have stopped. */
  lemma Terminates(samples: nat, ok: nat -> bool, trace: seq<State>, schedule: seq<Action>)
    requires Run(samples, ok, trace, schedule)
    ensures |schedule| <= 3 * (samples + |trace[0].threads|)
    ensures var last := trace[|schedule|];
      (forall a :: !Enabled(last, a)) <==> (forall t :: 0 <= t < |last.threads| ==> last.threads[t].Stopped?)
  {
    RunInv(samples, ok, trace, schedule, |schedule|);
    var last := trace[|schedule|];
    StoppedBound(ok, last.threads);
    if t: nat :| t < |last.threads| && !last.threads[t].Stopped? {
      assert Enabled(last, Draw(t)) || Enabled(last, Finish(t)) || Enabled(last, Count(t));
    }
  }

  // ----- The loop of one worker -----

  class Shared {
    const samples: nat
    var currentIndex: nat
    var result: nat

    constructor (samples: nat)
      ensures this.samples == samples && currentIndex == result == 0
    {
      this.samples := samples;
      currentIndex, result := 0, 0;
    }

    /** The loop with no other thread running; `ok` is what ProcessData answers, `processed` the indices it gets. */
    method Worker(ok: nat -> bool) returns (processed: seq<nat>)
      modifies this
      ensures currentIndex == (if old(currentIndex) < samples then samples else old(currentIndex)) + 1
      ensures |processed| == currentIndex - 1 - old(currentIndex)
      ensures forall i :: 0 <= i < |processed| ==> processed[i] == old(currentIndex) + i
      ensures result + Successes(ok, Min(old(currentIndex), samples)) == old(result) + Successes(ok, samples)
    {
      processed := [];
      while true
        invariant currentIndex == old(currentIndex) + |processed|
        invariant |processed| > 0 ==> currentIndex <= samples
        invariant forall i :: 0 <= i < |processed| ==> processed[i] == old(currentIndex) + i
        invariant result + Successes(ok, Min(old(currentIndex), samples))
               == old(result) + Successes(ok, Min(currentIndex, samples))
        decreases samples - currentIndex
      {
        var index := currentIndex;
        currentIndex := currentIndex + 1;
        if index >= samples {
          break;
        }
        processed := processed + [index];
        if ok(index) {
          result := result + 1;
        }
      }
    }
  }
}
