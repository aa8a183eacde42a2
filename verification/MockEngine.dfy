/**
 How mock calls are handled by a set of expectations: matching, prerequisites,
 saturation, retirement and the choice of the action. Every call is one atomic
 step under the global mutex.
 */
module MockEngine {
  import opened ExpectCall
  import opened Options

  /**
   An expectation of one mock function. Its prerequisites are any others, created
   before or after it; the rank only shows that they form no cycle, and every
   finite graph without cycles has one.
   */
  datatype Expectation<!Arg, A> = Expectation(
    mocker: nat, matcher: Arg -> bool, spec: Spec<Arg, A>, rank: nat)

  /** What changes while calls are made. */
  datatype Status = Status(calls: nat, retired: bool)

  datatype Call<Arg> = Call(mocker: nat, arg: Arg)

  /** `action == None` is the default action. */
  datatype Outcome<+A> = Unexpected | Handled(target: nat, excessive: bool, action: Option<A>)

  ghost predicate WellFormed<Arg, A>(exps: seq<Expectation<Arg, A>>) {
    forall i, p {:trigger p in exps[i].spec.prerequisites} ::
      0 <= i < |exps| && p in exps[i].spec.prerequisites ==> p < |exps| && exps[p].rank < exps[i].rank
  }

  /** `p` is an immediate or a transitive prerequisite of `i`. */
  predicate Precedes<Arg, A>(exps: seq<Expectation<Arg, A>>, p: nat, i: nat)
    requires WellFormed(exps) && i < |exps|
    decreases exps[i].rank
  {
    || p in exps[i].spec.prerequisites
    || exists q :: q in exps[i].spec.prerequisites && Precedes(exps, p, q)
  }

  predicate Satisfied<Arg, A>(exps: seq<Expectation<Arg, A>>, st: seq<Status>, i: nat)
    requires i < |exps| == |st|
  {
    exps[i].spec.cardinality.satisfied(st[i].calls)
  }

  predicate Saturated<Arg, A>(exps: seq<Expectation<Arg, A>>, st: seq<Status>, i: nat)
    requires i < |exps| == |st|
  {
    exps[i].spec.cardinality.saturated(st[i].calls)
  }

  predicate PrerequisitesSatisfied<Arg, A>(exps: seq<Expectation<Arg, A>>, st: seq<Status>, i: nat)
    requires WellFormed(exps) && i < |exps| == |st|
  {
    forall p: nat :: p < |exps| && Precedes(exps, p, i) ==> Satisfied(exps, st, p)
  }

  predicate ShouldHandle<Arg, A>(exps: seq<Expectation<Arg, A>>, st: seq<Status>, i: nat, c: Call<Arg>)
    requires WellFormed(exps) && i < |exps| == |st|
  {
    && exps[i].mocker == c.mocker
    && !st[i].retired
    && PrerequisitesSatisfied(exps, st, i)
    && exps[i].matcher(c.arg) && exps[i].spec.extraMatcher(c.arg)
  }

  /** `h` is the expectation the call goes to: the one created last among those that should handle it. */
  ghost predicate Chosen<Arg, A>(
    exps: seq<Expectation<Arg, A>>, st: seq<Status>, c: Call<Arg>, h: Option<nat>)
    requires WellFormed(exps) && |exps| == |st|
  {
    match h
    case None => forall i: nat :: i < |exps| ==> !ShouldHandle(exps, st, i, c)
    case Some(e) =>
      && e < |exps| && ShouldHandle(exps, st, e, c)
      && forall i: nat :: e < i < |exps| ==> !ShouldHandle(exps, st, i, c)
  }

  /** The action of the `count`-th call, when the expectation accepts it. */
  function CurrentAction<Arg, A>(s: Spec<Arg, A>, count: nat): Option<A>
    requires count >= 1
  {
    if count <= |s.once| then Some(s.once[count - 1]) else s.repeated
  }

  /** The "actions ran out" warning. */
  predicate ActionsRanOut<Arg, A>(s: Spec<Arg, A>, count: nat) {
    |s.once| > 0 && s.repeated.None? && count > |s.once|
  }

  function Respond<Arg, A>(exps: seq<Expectation<Arg, A>>, st: seq<Status>, e: nat): Outcome<A>
    requires e < |exps| == |st|
  {
    if Saturated(exps, st, e) then Handled(e, true, None)
    else Handled(e, false, CurrentAction(exps[e].spec, st[e].calls + 1))
  }

  /** The statuses after expectation `e` took a call. */
  function Afterwards<Arg, A>(exps: seq<Expectation<Arg, A>>, st: seq<Status>, e: nat): (next: seq<Status>)
    requires WellFormed(exps) && e < |exps| == |st|
    ensures |next| == |st|
  {
    var spec, calls := exps[e].spec, st[e].calls + 1;
    if Saturated(exps, st, e) then st[e := st[e].(calls := calls)]
    else
      var retired := st[e].retired || (spec.retiresOnSaturation && spec.cardinality.saturated(calls));
      seq(|st|, i requires 0 <= i < |st| =>
        if i == e then Status(calls, retired) else st[i].(retired := st[i].retired || Precedes(exps, i, e)))
  }

  /** A prerequisite has a smaller rank. */
  lemma {:induction false} NotItsOwn<Arg, A>(exps: seq<Expectation<Arg, A>>, p: nat, i: nat)
    requires WellFormed(exps) && i < |exps|
    ensures Precedes(exps, p, i) ==> p < |exps| && exps[p].rank < exps[i].rank
    decreases exps[i].rank
  {
    if Precedes(exps, p, i) && p !in exps[i].spec.prerequisites {
      var q :| q in exps[i].spec.prerequisites && Precedes(exps, p, q);
      NotItsOwn(exps, p, q);
    }
  }

  lemma {:induction false} PrecedesTransitive<Arg, A>(exps: seq<Expectation<Arg, A>>, p: nat, q: nat, i: nat)
    requires WellFormed(exps) && i < |exps| && q < |exps|
    requires Precedes(exps, p, q) && Precedes(exps, q, i)
    ensures Precedes(exps, p, i)
    decreases exps[i].rank
  {
    if q !in exps[i].spec.prerequisites {
      var r :| r in exps[i].spec.prerequisites && Precedes(exps, q, r);
      PrecedesTransitive(exps, p, q, r);
    }
  }

  /** One mock call. */
  ghost predicate Step<Arg, A>(
    exps: seq<Expectation<Arg, A>>, st: seq<Status>, c: Call<Arg>, next: seq<Status>, r: Outcome<A>)
    requires WellFormed(exps) && |exps| == |st|
  {
    match r
    case Unexpected => Chosen(exps, st, c, None) && next == st
    case Handled(e, _, _) =>
      Chosen(exps, st, c, Some(e)) && r == Respond(exps, st, e) && next == Afterwards(exps, st, e)
  }

  /** The expectations of all mock objects, and the calls made to them. */
  class Mocks<!Arg, A> {
    const exps: seq<Expectation<Arg, A>>
    const calls: array<nat>
    const retired: array<bool>

    ghost predicate Valid()
      reads this
    {
      WellFormed(exps) && calls.Length == retired.Length == |exps|
    }

    ghost function Statuses(): (st: seq<Status>)
      reads this, calls, retired
      requires Valid()
      ensures |st| == |exps|
    {
      seq(|exps|, i requires 0 <= i < |exps| reads this, calls, retired => Status(calls[i], retired[i]))
    }

    /** All expectations are set, and no call was made. */
    constructor (exps: seq<Expectation<Arg, A>>)
      requires WellFormed(exps)
      ensures Valid() && this.exps == exps && fresh(calls) && fresh(retired)
      ensures forall i :: 0 <= i < |exps| ==> Statuses()[i] == Status(0, false)
    {
      this.exps := exps;
      calls := new nat[|exps|](_ => 0);
      retired := new bool[|exps|](_ => false);
    }

    method IsSatisfied(i: nat) returns (b: bool)
      requires Valid() && i < |exps|
      ensures b <==> Satisfied(exps, Statuses(), i)
    {
      b := exps[i].spec.cardinality.satisfied(calls[i]);
    }

    /** Visits every expectation that is a prerequisite. */
    method AllPrerequisitesAreSatisfied(i: nat) returns (b: bool)
      requires Valid() && i < |exps|
      ensures b <==> PrerequisitesSatisfied(exps, Statuses(), i)
    {
      for p := 0 to |exps|
        invariant forall q: nat :: q < p && Precedes(exps, q, i) ==> Satisfied(exps, Statuses(), q)
      {
        var satisfied := IsSatisfied(p);
        if Precedes(exps, p, i) && !satisfied {
          return false;
        }
      }
      return true;
    }

    /** Searches the expectations of the mock function from the last to the first. */
    method FindMatchingExpectation(c: Call<Arg>) returns (h: Option<nat>)
      requires Valid()
      ensures Chosen(exps, Statuses(), c, h)
    {
      var i := |exps|;
      while i > 0
        invariant i <= |exps|
        invariant forall k: nat :: i <= k < |exps| ==> !ShouldHandle(exps, Statuses(), k, c)
      {
        i := i - 1;
        if exps[i].mocker == c.mocker {
          var ready := AllPrerequisitesAreSatisfied(i);
          if !retired[i] && ready && exps[i].matcher(c.arg) && exps[i].spec.extraMatcher(c.arg) {
            return Some(i);
          }
        }
      }
      return None;
    }

    method RetireAllPreRequisites(e: nat)
      requires Valid() && e < |exps|
      modifies retired
      ensures forall i :: 0 <= i < |exps| ==> retired[i] == (old(retired[i]) || Precedes(exps, i, e))
    {
      for p := 0 to |exps|
        invariant forall i :: 0 <= i < |exps| ==>
          retired[i] == (old(retired[i]) || (i < p && Precedes(exps, i, e)))
      {
        if Precedes(exps, p, e) {
          retired[p] := true;
        }
      }
    }

    method GetActionForArguments(e: nat) returns (r: Outcome<A>)
      requires Valid() && e < |exps|
      modifies calls, retired
      ensures r == Respond(exps, old(Statuses()), e)
      ensures Statuses() == Afterwards(exps, old(Statuses()), e)
    {
      NotItsOwn(exps, e, e);
      var spec := exps[e].spec;
      if spec.cardinality.saturated(calls[e]) {
        calls[e] := calls[e] + 1;
        return Handled(e, true, None);
      }
      calls[e] := calls[e] + 1;
      RetireAllPreRequisites(e);
      if spec.retiresOnSaturation && spec.cardinality.saturated(calls[e]) {
        retired[e] := true;
      }
      return Handled(e, false, CurrentAction(spec, calls[e]));
    }

    method Invoke(c: Call<Arg>) returns (r: Outcome<A>)
      requires Valid()
      modifies calls, retired
      ensures Step(exps, old(Statuses()), c, Statuses(), r)
    {
      var h := FindMatchingExpectation(c);
      if h.None? {
        return Unexpected;
      }
      r := GetActionForArguments(h.value);
    }
  }

  /** A run: any calls, to any mock functions, in any order. */
  ghost predicate Run<Arg, A>(
    exps: seq<Expectation<Arg, A>>, sts: seq<seq<Status>>, calls: seq<Call<Arg>>, outcomes: seq<Outcome<A>>)
  {
    && WellFormed(exps)
    && |sts| == |calls| + 1 && |outcomes| == |calls|
    && (forall k :: 0 <= k < |sts| ==> |sts[k]| == |exps|)
    && (forall i :: 0 <= i < |exps| ==> sts[0][i] == Status(0, false))
    && (forall k :: 0 <= k < |calls| ==> Step(exps, sts[k], calls[k], sts[k + 1], outcomes[k]))
  }

  lemma StepCounts<Arg, A>(
    exps: seq<Expectation<Arg, A>>, st: seq<Status>, c: Call<Arg>, next: seq<Status>, r: Outcome<A>, e: nat)
    requires WellFormed(exps) && |exps| == |st| && Step(exps, st, c, next, r) && e < |exps|
    ensures next[e].calls == st[e].calls + if r.Handled? && r.target == e then 1 else 0
    ensures r.Handled? && r.target == e ==> (r.excessive <==> Saturated(exps, st, e))
  {
  }

  // ----- Retirement -----

  /** The prerequisites of a retired expectation are retired. */
  ghost predicate RetiredClosed<Arg, A>(exps: seq<Expectation<Arg, A>>, st: seq<Status>)
    requires WellFormed(exps) && |exps| == |st|
  {
    forall i: nat, p: nat :: i < |exps| && p < |exps| && st[i].retired && Precedes(exps, p, i) ==> st[p].retired
  }

  ghost predicate RetiredSatisfied<Arg, A>(exps: seq<Expectation<Arg, A>>, st: seq<Status>)
    requires |exps| == |st|
  {
    forall i: nat :: i < |exps| && st[i].retired ==> Satisfied(exps, st, i)
  }

  /** What a call can do to an expectation that is already retired: nothing. */
  lemma RetiredIsFrozen<Arg, A>(
    exps: seq<Expectation<Arg, A>>, st: seq<Status>, c: Call<Arg>, next: seq<Status>, r: Outcome<A>, i: nat)
    requires WellFormed(exps) && |exps| == |st| && i < |exps|
    requires Step(exps, st, c, next, r) && st[i].retired
    ensures next[i] == st[i]
    ensures r.Handled? ==> r.target != i
  {
  }

  lemma StepKeepsClosed<Arg, A>(
    exps: seq<Expectation<Arg, A>>, st: seq<Status>, c: Call<Arg>, next: seq<Status>, r: Outcome<A>)
    requires WellFormed(exps) && |exps| == |st| && Step(exps, st, c, next, r)
    requires RetiredClosed(exps, st)
    ensures RetiredClosed(exps, next)
  {
    forall i: nat, p: nat | i < |exps| && p < |exps| && next[i].retired && Precedes(exps, p, i)
      ensures next[p].retired
    {
      NotItsOwn(exps, p, i);
      if r.Handled? && !r.excessive {
        var e := r.target;
        assert !st[e].retired;
        if st[i].retired {
          assert st[p].retired;
        } else if i != e {
          assert Precedes(exps, i, e);
          PrecedesTransitive(exps, p, i, e);
          NotItsOwn(exps, p, e);
        }
      } else {
        assert st[i].retired == next[i].retired && st[p].retired == next[p].retired;
      }
    }
  }

  /** The call makes its expectation retire although the count is over-saturated: saturated, but not satisfied. */
  predicate RetiresOverSaturated<Arg, A>(exps: seq<Expectation<Arg, A>>, st: seq<Status>, r: Outcome<A>)
    requires |exps| == |st|
  {
    && r.Handled? && !r.excessive && r.target < |exps|
    && exps[r.target].spec.retiresOnSaturation
    && exps[r.target].spec.cardinality.OverSaturated(st[r.target].calls + 1)
  }

  lemma StepKeepsSatisfied<Arg, A>(
    exps: seq<Expectation<Arg, A>>, st: seq<Status>, c: Call<Arg>, next: seq<Status>, r: Outcome<A>)
    requires WellFormed(exps) && |exps| == |st| && Step(exps, st, c, next, r)
    ensures RetiredSatisfied(exps, next) <==> RetiredSatisfied(exps, st) && !RetiresOverSaturated(exps, st, r)
  {
    if r.Handled? {
      NotItsOwn(exps, r.target, r.target);
      assert RetiresOverSaturated(exps, st, r) ==> next[r.target].retired && !Satisfied(exps, next, r.target);
    }
    if i: nat :| i < |exps| && st[i].retired && !Satisfied(exps, st, i) {
      RetiredIsFrozen(exps, st, c, next, r, i);
      assert next[i].retired && !Satisfied(exps, next, i);
    }
  }

  /** In every state of every run, the retired expectations are closed under prerequisites. */
  lemma {:induction false} RetiredAreClosed<Arg, A>(
    exps: seq<Expectation<Arg, A>>, sts: seq<seq<Status>>, calls: seq<Call<Arg>>, outcomes: seq<Outcome<A>>, k: nat)
    requires Run(exps, sts, calls, outcomes) && k < |sts|
    ensures RetiredClosed(exps, sts[k])
  {
    hide Chosen, Afterwards, Precedes;
    if k > 0 {
      RetiredAreClosed(exps, sts, calls, outcomes, k - 1);
      StepKeepsClosed(exps, sts[k - 1], calls[k - 1], sts[k], outcomes[k - 1]);
    }
  }

  /** All retired expectations are satisfied exactly as long as no call has made one retire over-saturated. */
  lemma {:induction false} SatisfiedUntilOverSaturated<Arg, A>(
    exps: seq<Expectation<Arg, A>>, sts: seq<seq<Status>>, calls: seq<Call<Arg>>, outcomes: seq<Outcome<A>>, k: nat)
    requires Run(exps, sts, calls, outcomes) && k < |sts|
    ensures RetiredSatisfied(exps, sts[k]) <==>
      forall j :: 0 <= j < k ==> !RetiresOverSaturated(exps, sts[j], outcomes[j])
  {
    hide Chosen, Afterwards, Precedes;
    if k > 0 {
      SatisfiedUntilOverSaturated(exps, sts, calls, outcomes, k - 1);
      StepKeepsSatisfied(exps, sts[k - 1], calls[k - 1], sts[k], outcomes[k - 1]);
    }
  }

  /** An expectation that retires on saturation and has not retired has taken no call that saturates it. */
  ghost predicate NoneSaturatedYet<Arg, A>(exps: seq<Expectation<Arg, A>>, st: seq<Status>)
    requires |exps| == |st|
  {
    forall e: nat, n: nat :: e < |exps| && n < st[e].calls && exps[e].spec.retiresOnSaturation && !st[e].retired ==>
      !Saturates(exps[e].spec.cardinality, n)
  }

  lemma StepKeepsUnsaturated<Arg, A>(
    exps: seq<Expectation<Arg, A>>, st: seq<Status>, c: Call<Arg>, next: seq<Status>, r: Outcome<A>)
    requires WellFormed(exps) && |exps| == |st| && Step(exps, st, c, next, r)
    requires NoneSaturatedYet(exps, st)
    ensures NoneSaturatedYet(exps, next)
    ensures (forall e :: 0 <= e < |exps| && exps[e].spec.retiresOnSaturation ==>
               SaturatesSatisfied(exps[e].spec.cardinality)) ==>
      !RetiresOverSaturated(exps, st, r)
  {
    if r.Handled? {
      NotItsOwn(exps, r.target, r.target);
      var e, c := r.target, exps[r.target].spec.cardinality;
      if exps[e].spec.retiresOnSaturation && Saturates(c, st[e].calls) {
        assert SaturatesSatisfied(c) ==> c.satisfied(st[e].calls + 1);
      }
    }
  }

  lemma {:induction false} NoneOverSaturated<Arg, A>(
    exps: seq<Expectation<Arg, A>>, sts: seq<seq<Status>>, calls: seq<Call<Arg>>, outcomes: seq<Outcome<A>>, k: nat)
    requires Run(exps, sts, calls, outcomes) && k < |sts|
    requires forall e :: 0 <= e < |exps| && exps[e].spec.retiresOnSaturation ==>
      SaturatesSatisfied(exps[e].spec.cardinality)
    ensures NoneSaturatedYet(exps, sts[k])
    ensures forall j :: 0 <= j < k ==> !RetiresOverSaturated(exps, sts[j], outcomes[j])
  {
    hide Chosen, Afterwards, Precedes;
    if k > 0 {
      NoneOverSaturated(exps, sts, calls, outcomes, k - 1);
      StepKeepsUnsaturated(exps, sts[k - 1], calls[k - 1], sts[k], outcomes[k - 1]);
    }
  }

  /**
   If every expectation that retires on saturation has a cardinality that its
   first saturating call satisfies, the retired ones are satisfied in every
   state of every run.
   */
  lemma RetiredAreSatisfied<Arg, A>(
    exps: seq<Expectation<Arg, A>>, sts: seq<seq<Status>>, calls: seq<Call<Arg>>, outcomes: seq<Outcome<A>>, k: nat)
    requires Run(exps, sts, calls, outcomes) && k < |sts|
    requires forall e :: 0 <= e < |exps| && exps[e].spec.retiresOnSaturation ==>
      SaturatesSatisfied(exps[e].spec.cardinality)
    ensures RetiredSatisfied(exps, sts[k])
  {
    NoneOverSaturated(exps, sts, calls, outcomes, k);
    SatisfiedUntilOverSaturated(exps, sts, calls, outcomes, k);
  }

  /** The only expectation, for any call of function 0. */
  function Lone<Arg, A>(c: Cardinality): seq<Expectation<Arg, A>> {
    [Expectation(0, _ => true, NewSpec(c).(retiresOnSaturation := true), 0)]
  }

  /**
   No weaker condition will do: an expectation whose first saturating call does
   not satisfy it is retired by that call, unsatisfied.
   */
  lemma UnsatisfiedRetires<Arg>(c: Cardinality, arg: Arg)
    returns (sts: seq<seq<Status>>, calls: seq<Call<Arg>>, outcomes: seq<Outcome<nat>>)
    requires !SaturatesSatisfied(c)
    ensures Run(Lone<Arg, nat>(c), sts, calls, outcomes)
    ensures sts != [] && !RetiredSatisfied(Lone<Arg, nat>(c), sts[|sts| - 1])
  {
    var n: nat :|
      Saturates(c, n) && (forall m: nat :: m < n ==> !Saturates(c, m)) && !c.satisfied(n + 1);
    var exps: seq<Expectation<Arg, nat>> := Lone(c);
    sts := seq(n + 2, k requires 0 <= k => [Status(k, k == n + 1)]);
    calls := seq(n + 1, _ => Call(0, arg));
    outcomes := seq(n + 1, k requires 0 <= k => Handled(0, c.saturated(k), None));
    forall k | 0 <= k < |calls| ensures Step(exps, sts[k], calls[k], sts[k + 1], outcomes[k]) {
      assert k < n ==> !Saturates(c, k);
      assert Afterwards(exps, sts[k], 0) == sts[k + 1];
    }
    assert sts[n + 1][0].retired && !Satisfied(exps, sts[n + 1], 0);
  }

  /** An expectation retired at some moment has the same status ever after. */
  lemma {:induction false} StaysRetired<Arg, A>(
    exps: seq<Expectation<Arg, A>>, sts: seq<seq<Status>>, calls: seq<Call<Arg>>, outcomes: seq<Outcome<A>>,
    k: nat, j: nat, i: nat)
    requires Run(exps, sts, calls, outcomes) && k <= j < |sts| && i < |exps| && sts[k][i].retired
    ensures sts[j][i] == sts[k][i]
    decreases j
  {
    if k < j {
      StaysRetired(exps, sts, calls, outcomes, k, j - 1, i);
      RetiredIsFrozen(exps, sts[j - 1], calls[j - 1], sts[j], outcomes[j - 1], i);
    }
  }

  lemma AcceptedCallRetires<Arg, A>(
    exps: seq<Expectation<Arg, A>>, st: seq<Status>, c: Call<Arg>, next: seq<Status>, r: Outcome<A>, p: nat)
    requires WellFormed(exps) && |exps| == |st| && Step(exps, st, c, next, r)
    requires r.Handled? && !r.excessive && p < |exps| && Precedes(exps, p, r.target)
    ensures next[p].retired && Satisfied(exps, next, p)
  {
    NotItsOwn(exps, p, r.target);
  }

  /**
   Once an expectation has taken a call that was not excessive, each of its
   transitive prerequisites is retired and satisfied in every later state, and
   no later call goes to it.
   */
  lemma AcceptedCallClosesPrerequisites<Arg, A>(
    exps: seq<Expectation<Arg, A>>, sts: seq<seq<Status>>, calls: seq<Call<Arg>>, outcomes: seq<Outcome<A>>,
    k: nat, j: nat, p: nat)
    requires Run(exps, sts, calls, outcomes) && k < j < |sts|
    requires outcomes[k].Handled? && !outcomes[k].excessive
    requires p < |exps| && outcomes[k].target < |exps| && Precedes(exps, p, outcomes[k].target)
    ensures sts[j][p].retired && Satisfied(exps, sts[j], p)
    ensures j < |outcomes| && outcomes[j].Handled? ==> outcomes[j].target != p
  {
    AcceptedCallRetires(exps, sts[k], calls[k], sts[k + 1], outcomes[k], p);
    StaysRetired(exps, sts, calls, outcomes, k + 1, j, p);
    if j < |outcomes| {
      RetiredIsFrozen(exps, sts[j], calls[j], sts[j + 1], outcomes[j], p);
    }
  }

  /** A chain of expectations, each an immediate prerequisite of the next: what a Sequence builds. */
  ghost predicate Chain<Arg, A>(exps: seq<Expectation<Arg, A>>, chain: seq<nat>)
    requires WellFormed(exps)
  {
    && (forall i :: 0 <= i < |chain| ==> chain[i] < |exps|)
    && (forall i :: 0 < i < |chain| ==> chain[i - 1] in exps[chain[i]].spec.prerequisites)
  }

  lemma {:induction false} ChainPrecedes<Arg, A>(
    exps: seq<Expectation<Arg, A>>, chain: seq<nat>, a: nat, b: nat)
    requires WellFormed(exps) && Chain(exps, chain) && a < b < |chain|
    ensures Precedes(exps, chain[a], chain[b])
    decreases b
  {
    if a + 1 < b {
      ChainPrecedes(exps, chain, a, b - 1);
      PrecedesTransitive(exps, chain[a], chain[b - 1], chain[b]);
    }
  }

  /** Of the calls that an expectation has taken, the first was accepted, unless no call is expected at all. */
  lemma {:induction false} FirstWasAccepted<Arg, A>(
    exps: seq<Expectation<Arg, A>>, sts: seq<seq<Status>>, calls: seq<Call<Arg>>, outcomes: seq<Outcome<A>>,
    e: nat, k: nat) returns (j: nat)
    requires Run(exps, sts, calls, outcomes) && k < |sts| && e < |exps|
    requires !exps[e].spec.cardinality.saturated(0) && sts[k][e].calls > 0
    ensures j < k && outcomes[j].Handled? && outcomes[j].target == e && !outcomes[j].excessive
    decreases k
  {
    assert k > 0;
    StepCounts(exps, sts[k - 1], calls[k - 1], sts[k], outcomes[k - 1], e);
    if sts[k - 1][e].calls > 0 {
      j := FirstWasAccepted(exps, sts, calls, outcomes, e, k - 1);
    } else {
      j := k - 1;
    }
  }

  /**
   After a call at one position of a sequence, no later call goes to an earlier
   position, be the call accepted or excessive. The exception is an excessive
   call where no call is expected at all.
   */
  lemma SequenceNeverGoesBack<Arg, A>(
    exps: seq<Expectation<Arg, A>>, sts: seq<seq<Status>>, calls: seq<Call<Arg>>, outcomes: seq<Outcome<A>>,
    chain: seq<nat>, a: nat, b: nat, k: nat, j: nat)
    requires Run(exps, sts, calls, outcomes) && Chain(exps, chain) && a < |chain| && b < |chain|
    requires k < j < |outcomes| && outcomes[k].Handled? && outcomes[j].Handled?
    requires outcomes[k].target == chain[a] && outcomes[j].target == chain[b]
    requires !outcomes[k].excessive || !exps[chain[a]].spec.cardinality.saturated(0)
    ensures a <= b
  {
    if b < a {
      ChainPrecedes(exps, chain, b, a);
      var i := k;
      if outcomes[k].excessive {
        StepCounts(exps, sts[k], calls[k], sts[k + 1], outcomes[k], chain[a]);
        i := FirstWasAccepted(exps, sts, calls, outcomes, chain[a], k);
      }
      AcceptedCallClosesPrerequisites(exps, sts, calls, outcomes, i, j, chain[b]);
    }
  }

  /** The exception is real, for every cardinality that is saturated at zero: calls at positions 0, 1 and 0 again. */
  lemma SaturatedPositionGoesBack<Arg>(c: Cardinality, arg: Arg)
    returns (exps: seq<Expectation<Arg, nat>>, sts: seq<seq<Status>>, calls: seq<Call<Arg>>,
             outcomes: seq<Outcome<nat>>)
    requires c.saturated(0)
    ensures Run(exps, sts, calls, outcomes) && Chain(exps, [0, 1])
    ensures |exps| == 2 && exps[1].spec.cardinality == c
    ensures outcomes == [Handled(0, false, None), Handled(1, true, None), Handled(0, false, None)]
  {
    var first: Spec<Arg, nat> := NewSpec(AtLeast(0));
    var second: Spec<Arg, nat> := NewSpec(c).(prerequisites := {0});
    exps := [Expectation(0, _ => true, first, 0), Expectation(1, _ => true, second, 1)];
    var s0, s1 := [Status(0, false), Status(0, false)], [Status(1, false), Status(0, false)];
    var s2, s3 := [Status(1, false), Status(1, false)], [Status(2, false), Status(1, false)];
    sts, calls := [s0, s1, s2, s3], [Call(0, arg), Call(1, arg), Call(0, arg)];
    outcomes := [Handled(0, false, None), Handled(1, true, None), Handled(0, false, None)];
    assert !Precedes(exps, 0, 0) && !Precedes(exps, 1, 0);
    assert Afterwards(exps, s0, 0) == s1 && Afterwards(exps, s1, 1) == s2 && Afterwards(exps, s2, 0) == s3;
  }

  // ----- Actions -----

  /** How many of the first `k` outcomes are accepted calls of expectation `e`. */
  function Accepted<A>(outcomes: seq<Outcome<A>>, k: nat, e: nat): nat
    requires k <= |outcomes|
  {
    if k == 0 then 0
    else
      var r := outcomes[k - 1];
      Accepted(outcomes, k - 1, e) + (if r.Handled? && r.target == e && !r.excessive then 1 else 0)
  }

  /** The calls taken, against the calls accepted, for a spec whose cardinality comes from its actions. */
  lemma {:induction false} AcceptedCount<Arg, A>(
    exps: seq<Expectation<Arg, A>>, sts: seq<seq<Status>>, calls: seq<Call<Arg>>, outcomes: seq<Outcome<A>>,
    e: nat, k: nat)
    requires Run(exps, sts, calls, outcomes) && k < |sts| && e < |exps|
    requires exps[e].spec.cardinality
      == if exps[e].spec.repeated.Some? then AtLeast(|exps[e].spec.once|) else Exactly(|exps[e].spec.once|)
    ensures var s, n := exps[e].spec, sts[k][e].calls;
      Accepted(outcomes, k, e) == if s.repeated.None? && n > |s.once| then |s.once| else n
  {
    hide Chosen, Afterwards, Precedes;
    if k > 0 {
      AcceptedCount(exps, sts, calls, outcomes, e, k - 1);
      StepCounts(exps, sts[k - 1], calls[k - 1], sts[k], outcomes[k - 1], e);
      assert Saturated(exps, sts[k - 1], e)
        <==> exps[e].spec.repeated.None? && sts[k - 1][e].calls >= |exps[e].spec.once|;
    }
  }

  /** Up to saturation all calls are accepted. */
  lemma {:induction false} AllAccepted<Arg, A>(
    exps: seq<Expectation<Arg, A>>, sts: seq<seq<Status>>, calls: seq<Call<Arg>>, outcomes: seq<Outcome<A>>,
    e: nat, k: nat)
    requires Run(exps, sts, calls, outcomes) && k < |sts| && e < |exps|
    requires Steady(exps[e].spec.cardinality)
    requires !exps[e].spec.cardinality.saturated(sts[k][e].calls)
    ensures Accepted(outcomes, k, e) == sts[k][e].calls
    decreases k
  {
    if k > 0 {
      StepCounts(exps, sts[k - 1], calls[k - 1], sts[k], outcomes[k - 1], e);
      SteadyBefore(exps[e].spec.cardinality, sts[k - 1][e].calls, sts[k][e].calls);
      AllAccepted(exps, sts, calls, outcomes, e, k - 1);
    }
  }

  /**
   For every expectation whose cardinality stays saturated once it is, however
   it was specified: an accepted call performs the action of its position among
   the accepted calls.
   */
  lemma AcceptedAction<Arg, A>(
    exps: seq<Expectation<Arg, A>>, sts: seq<seq<Status>>, calls: seq<Call<Arg>>, outcomes: seq<Outcome<A>>,
    e: nat, k: nat)
    requires Run(exps, sts, calls, outcomes) && e < |exps| && Steady(exps[e].spec.cardinality)
    requires k < |outcomes| && outcomes[k].Handled? && outcomes[k].target == e && !outcomes[k].excessive
    ensures outcomes[k].action == CurrentAction(exps[e].spec, Accepted(outcomes, k, e) + 1)
  {
    hide Chosen, Afterwards, Precedes;
    StepCounts(exps, sts[k], calls[k], sts[k + 1], outcomes[k], e);
    AllAccepted(exps, sts, calls, outcomes, e, k);
  }

  lemma {:induction false} AcceptedAtMost<A>(outcomes: seq<Outcome<A>>, k: nat, e: nat)
    requires k <= |outcomes|
    ensures Accepted(outcomes, k, e) <= k
  {
    if k > 0 {
      AcceptedAtMost(outcomes, k - 1, e);
    }
  }

  /** With any other cardinality there is a run in which an accepted call gets a later action than that. */
  lemma UnsteadySkipsAction<Arg>(c: Cardinality, arg: Arg)
    returns (exps: seq<Expectation<Arg, nat>>, sts: seq<seq<Status>>, calls: seq<Call<Arg>>,
             outcomes: seq<Outcome<nat>>, k: nat)
    requires !Steady(c)
    ensures Run(exps, sts, calls, outcomes) && |exps| == 1 && exps[0].spec.cardinality == c
    ensures k < |outcomes| && outcomes[k].Handled? && outcomes[k].target == 0 && !outcomes[k].excessive
    ensures outcomes[k].action != CurrentAction(exps[0].spec, Accepted(outcomes, k, 0) + 1)
  {
    var n: nat :| c.saturated(n) && !c.saturated(n + 1);
    k := n + 1;
    var spec: Spec<Arg, nat> := NewSpec(c).(once := seq(n + 2, i => i));
    exps := [Expectation(0, _ => true, spec, 0)];
    sts := seq(n + 3, i requires 0 <= i => [Status(i, false)]);
    calls := seq(n + 2, _ => Call(0, arg));
    outcomes := seq(n + 2, i requires 0 <= i => Respond(exps, [Status(i, false)], 0));
    forall i | 0 <= i < |calls| ensures Step(exps, sts[i], calls[i], sts[i + 1], outcomes[i]) {
      assert Afterwards(exps, sts[i], 0) == sts[i + 1];
    }
    AcceptedAtMost(outcomes, n, 0);
    assert Accepted(outcomes, n + 1, 0) == Accepted(outcomes, n, 0);
  }

  /**
   For a failure-free statement with a WillOnce and no Times, the accepted calls
   perform the WillOnce actions in order. Without WillRepeatedly there are no
   more accepted calls than actions, and the "ran out" branch is not taken; with
   it no call is excessive and every further call performs the repeated action.
   */
  lemma ActionsInOrder<Arg, A>(
    exps: seq<Expectation<Arg, A>>, sts: seq<seq<Status>>, calls: seq<Call<Arg>>, outcomes: seq<Outcome<A>>,
    e: nat, default: Cardinality, cs: seq<Clause<Arg, A>>, k: nat)
    requires Run(exps, sts, calls, outcomes) && e < |exps|
    requires exps[e].spec == Build(default, cs) && Build(default, cs).failures == 0
    requires (forall c :: c in cs ==> !c.Times?) && OnceActions(cs) != []
    requires k < |outcomes| && outcomes[k].Handled? && outcomes[k].target == e
    ensures var once, repeated, n := OnceActions(cs), exps[e].spec.repeated, Accepted(outcomes, k, e);
      && (outcomes[k].excessive <==> repeated.None? && n == |once|)
      && (repeated.None? ==> Accepted(outcomes, k + 1, e) <= |once|)
      && (!outcomes[k].excessive ==>
            && outcomes[k].action == (if n < |once| then Some(once[n]) else repeated)
            && !ActionsRanOut(exps[e].spec, sts[k + 1][e].calls))
  {
    CardinalityFromActions(default, cs);
    AcceptedCount(exps, sts, calls, outcomes, e, k);
    StepCounts(exps, sts[k], calls[k], sts[k + 1], outcomes[k], e);
  }

  /** How many of the first `k` calls went to expectation `e`, accepted or not. */
  function Handling<A>(outcomes: seq<Outcome<A>>, k: nat, e: nat): nat
    requires k <= |outcomes|
  {
    if k == 0 then 0
    else Handling(outcomes, k - 1, e) + (if outcomes[k - 1].Handled? && outcomes[k - 1].target == e then 1 else 0)
  }

  /** Every call that an expectation handles is counted, and nothing else. */
  lemma {:induction false} CallsAreCounted<Arg, A>(
    exps: seq<Expectation<Arg, A>>, sts: seq<seq<Status>>, calls: seq<Call<Arg>>, outcomes: seq<Outcome<A>>,
    e: nat, k: nat)
    requires Run(exps, sts, calls, outcomes) && k < |sts| && e < |exps|
    ensures sts[k][e].calls == Handling(outcomes, k, e)
  {
    hide Chosen, Afterwards, Precedes;
    if k > 0 {
      CallsAreCounted(exps, sts, calls, outcomes, e, k - 1);
      StepCounts(exps, sts[k - 1], calls[k - 1], sts[k], outcomes[k - 1], e);
    }
  }

  /**
   The actions of every statement, with or without Times and with any number of
   WillOnce clauses. A call is excessive exactly if the cardinality is saturated
   by the calls handled before, and then gets the default action. If the
   cardinality stays saturated once it is, the accepted calls perform the
   actions of the WillOnce clauses in order, and then that of the last
   WillRepeatedly, or the default action if there is none.
   */
  lemma ClauseActions<Arg, A>(
    exps: seq<Expectation<Arg, A>>, sts: seq<seq<Status>>, calls: seq<Call<Arg>>, outcomes: seq<Outcome<A>>,
    e: nat, default: Cardinality, cs: seq<Clause<Arg, A>>, k: nat, last: nat)
    requires Run(exps, sts, calls, outcomes) && e < |exps| && exps[e].spec == Build(default, cs)
    requires k < |outcomes| && outcomes[k].Handled? && outcomes[k].target == e
    ensures outcomes[k].excessive <==> Build(default, cs).cardinality.saturated(Handling(outcomes, k, e))
    ensures outcomes[k].excessive ==> outcomes[k].action == None
    ensures var once, n := OnceActions(cs), Accepted(outcomes, k, e);
      !outcomes[k].excessive && Steady(Build(default, cs).cardinality) ==>
        && (n < |once| ==> outcomes[k].action == Some(once[n]))
        && (n >= |once| && LastOf(cs, 6, last) ==> outcomes[k].action == Some(cs[last].action))
        && (n >= |once| && NoneOf(cs, 6) ==> outcomes[k].action == None)
  {
    hide Build, OnceActions, Chosen, Afterwards, Precedes;
    CallsAreCounted(exps, sts, calls, outcomes, e, k);
    StepCounts(exps, sts[k], calls[k], sts[k + 1], outcomes[k], e);
    ActionsAreKept(default, cs);
    LastRepeatedCounts(default, cs, last);
    if !outcomes[k].excessive && Steady(Build(default, cs).cardinality) {
      AcceptedAction(exps, sts, calls, outcomes, e, k);
    }
  }

  // ----- Which expectation handles a call, and when one is retired -----

  /** Expectation `i` could take the call: what the source asks for, spelled out. */
  ghost predicate CouldTake<Arg, A>(exps: seq<Expectation<Arg, A>>, st: seq<Status>, i: nat, c: Call<Arg>)
    requires WellFormed(exps) && i < |exps| == |st|
  {
    && exps[i].mocker == c.mocker && !st[i].retired
    && exps[i].matcher(c.arg) && exps[i].spec.extraMatcher(c.arg)
    && forall p: nat :: p < |exps| && Precedes(exps, p, i) ==> exps[p].spec.cardinality.satisfied(st[p].calls)
  }

  lemma TakersAreHandlers<Arg, A>(exps: seq<Expectation<Arg, A>>, st: seq<Status>, i: nat, c: Call<Arg>)
    requires WellFormed(exps) && i < |exps| == |st|
    ensures CouldTake(exps, st, i, c) == ShouldHandle(exps, st, i, c)
  {
    assert forall p: nat :: p < |exps| ==>
      Satisfied(exps, st, p) == exps[p].spec.cardinality.satisfied(st[p].calls);
  }

  /**
   A call goes to the expectation created last among those of its mock function
   that are not retired, match its arguments and have all their prerequisites
   satisfied; it is unexpected if there is none.
   */
  lemma NewestMatchHandles<Arg, A>(
    exps: seq<Expectation<Arg, A>>, sts: seq<seq<Status>>, calls: seq<Call<Arg>>, outcomes: seq<Outcome<A>>, k: nat)
    requires Run(exps, sts, calls, outcomes) && k < |outcomes|
    ensures outcomes[k] == Unexpected <==> forall i: nat :: i < |exps| ==> !CouldTake(exps, sts[k], i, calls[k])
    ensures outcomes[k].Handled? ==>
      && outcomes[k].target < |exps| && CouldTake(exps, sts[k], outcomes[k].target, calls[k])
      && forall i: nat :: outcomes[k].target < i < |exps| ==> !CouldTake(exps, sts[k], i, calls[k])
  {
    forall i: nat | i < |exps| ensures CouldTake(exps, sts[k], i, calls[k]) == ShouldHandle(exps, sts[k], i, calls[k]) {
      TakersAreHandlers(exps, sts[k], i, calls[k]);
    }
    assert Step(exps, sts[k], calls[k], sts[k + 1], outcomes[k]);
  }

  /** The call made after `j` calls retires expectation `i`. */
  ghost predicate Retires<Arg, A>(
    exps: seq<Expectation<Arg, A>>, outcomes: seq<Outcome<A>>, j: nat, i: nat)
    requires WellFormed(exps) && j < |outcomes|
  {
    && outcomes[j].Handled? && !outcomes[j].excessive && outcomes[j].target < |exps|
    && (Precedes(exps, i, outcomes[j].target) ||
        (i == outcomes[j].target && exps[i].spec.retiresOnSaturation &&
         exps[i].spec.cardinality.saturated(Handling(outcomes, j, i) + 1)))
  }

  lemma StepRetires<Arg, A>(
    exps: seq<Expectation<Arg, A>>, sts: seq<seq<Status>>, calls: seq<Call<Arg>>, outcomes: seq<Outcome<A>>,
    j: nat, i: nat)
    requires Run(exps, sts, calls, outcomes) && j < |outcomes| && i < |exps|
    ensures sts[j + 1][i].retired <==> sts[j][i].retired || Retires(exps, outcomes, j, i)
  {
    assert Step(exps, sts[j], calls[j], sts[j + 1], outcomes[j]);
    CallsAreCounted(exps, sts, calls, outcomes, i, j);
    if outcomes[j].Handled? {
      NotItsOwn(exps, i, outcomes[j].target);
    }
  }

  /**
   An expectation is retired exactly if some accepted call before went to one it
   precedes, or saturated itself while it retires on saturation.
   */
  lemma {:induction false} RetiredExactly<Arg, A>(
    exps: seq<Expectation<Arg, A>>, sts: seq<seq<Status>>, calls: seq<Call<Arg>>, outcomes: seq<Outcome<A>>,
    k: nat, i: nat)
    requires Run(exps, sts, calls, outcomes) && k < |sts| && i < |exps|
    ensures sts[k][i].retired <==> exists j: nat :: j < k && Retires(exps, outcomes, j, i)
  {
    hide Step, Retires, Precedes;
    if k > 0 {
      RetiredExactly(exps, sts, calls, outcomes, k - 1, i);
      StepRetires(exps, sts, calls, outcomes, k - 1, i);
    }
  }

  // ----- Ordering, from the clauses -----

  /**
   An expectation whose statement names `p` in an After, or follows it in a
   sequence, takes no call before `p` is satisfied; once it has accepted one, `p`
   is retired and takes none.
   */
  lemma NamedComesFirst<Arg, A>(
    exps: seq<Expectation<Arg, A>>, sts: seq<seq<Status>>, calls: seq<Call<Arg>>, outcomes: seq<Outcome<A>>,
    e: nat, default: Cardinality, cs: seq<Clause<Arg, A>>, i: nat, p: nat, k: nat)
    requires Run(exps, sts, calls, outcomes) && e < |exps| && exps[e].spec == Build(default, cs)
    requires i < |cs| && Names(cs[i], p)
    requires k < |outcomes| && outcomes[k].Handled? && outcomes[k].target == e
    ensures p < |exps| && exps[p].spec.cardinality.satisfied(Handling(outcomes, k, p))
    ensures !outcomes[k].excessive ==>
      forall j :: k < j < |outcomes| ==> !(outcomes[j].Handled? && outcomes[j].target == p)
  {
    PrerequisitesAreNamed(default, cs, p);
    assert Precedes(exps, p, e);
    NotItsOwn(exps, p, e);
    NewestMatchHandles(exps, sts, calls, outcomes, k);
    CallsAreCounted(exps, sts, calls, outcomes, p, k);
    forall j | !outcomes[k].excessive && k < j < |outcomes|
      ensures !(outcomes[j].Handled? && outcomes[j].target == p)
    {
      AcceptedCallClosesPrerequisites(exps, sts, calls, outcomes, k, j, p);
    }
  }

  /** Statements that each put their expectation behind the one before, as those of one sequence do, make a chain. */
  lemma StatementsMakeChain<Arg, A>(
    exps: seq<Expectation<Arg, A>>, chain: seq<nat>, default: Cardinality, statements: seq<seq<Clause<Arg, A>>>)
    requires WellFormed(exps) && |chain| == |statements|
    requires forall i :: 0 <= i < |chain| ==> chain[i] < |exps| && exps[chain[i]].spec == Build(default, statements[i])
    requires forall i :: 0 < i < |chain| ==> InSequence(Some(chain[i - 1])) in statements[i]
    ensures Chain(exps, chain)
  {
    forall i | 0 < i < |chain| ensures chain[i - 1] in exps[chain[i]].spec.prerequisites {
      var j :| 0 <= j < |statements[i]| && statements[i][j] == InSequence(Some(chain[i - 1]));
      assert Names(statements[i][j], chain[i - 1]);
      PrerequisitesAreNamed(default, statements[i], chain[i - 1]);
    }
  }
}
