/**
 The clauses of an EXPECT_CALL statement: the order checks, and the spec that
 the clauses leave behind.
 */
module ExpectCall {
  import opened Options

  /** A cardinality is any pair of predicates on the call count; users may define their own. */
  datatype Cardinality = Cardinality(satisfied: nat -> bool, saturated: nat -> bool)
  {
    predicate OverSaturated(n: nat) {
      saturated(n) && !satisfied(n)
    }
  }

  function Between(min: nat, max: nat): Cardinality {
    Cardinality(n => min <= n <= max, n => n >= max)
  }

  function Exactly(n: nat): Cardinality {
    Between(n, n)
  }

  function AtMost(n: nat): Cardinality {
    Between(0, n)
  }

  function AtLeast(n: nat): Cardinality {
    Cardinality(m => m >= n, m => false)
  }

  /** Call number `n + 1` is the one that saturates. */
  predicate Saturates(c: Cardinality, n: nat) {
    !c.saturated(n) && c.saturated(n + 1)
  }

  /** The first call that saturates also satisfies, if there is one. */
  ghost predicate SaturatesSatisfied(c: Cardinality) {
    forall n: nat :: Saturates(c, n) && (forall m: nat :: m < n ==> !Saturates(c, m)) ==> c.satisfied(n + 1)
  }

  /** True of the factories' cardinalities, unless the bounds of `Between` are crossed. */
  lemma FactoriesSaturateSatisfied(min: nat, max: nat)
    ensures SaturatesSatisfied(AtLeast(min)) && SaturatesSatisfied(Exactly(min)) && SaturatesSatisfied(AtMost(max))
    ensures SaturatesSatisfied(Between(min, max)) <==> min <= max || max == 0
  {
    if max > 0 && min > max {
      assert Saturates(Between(min, max), max - 1) && !Between(min, max).satisfied(max);
    }
  }

  /** Once saturated, the cardinality stays so. */
  ghost predicate Steady(c: Cardinality) {
    forall n: nat :: c.saturated(n) ==> c.saturated(n + 1)
  }

  lemma {:induction false} SteadyBefore(c: Cardinality, m: nat, n: nat)
    requires Steady(c) && m <= n && !c.saturated(n)
    ensures !c.saturated(m)
    decreases n
  {
    if m < n {
      SteadyBefore(c, m, n - 1);
    }
  }

  /** One clause; `InSequence` carries the last expectation of the sequence so far, `After` the named ones. */
  datatype Clause<!Arg, A> =
    | With(matcher: Arg -> bool)
    | Times(cardinality: Cardinality)
    | InSequence(last: Option<nat>)
    | After(expectations: set<nat>)
    | WillOnce(action: A)
    | WillRepeatedly(action: A)
    | RetiresOnSaturation

  /** The position of a clause in the enumeration; 0 is kNone. */
  function Rank<Arg, A>(c: Clause<Arg, A>): (r: nat)
    ensures 1 <= r <= 7
  {
    match c
    case With(_) => 1
    case Times(_) => 2
    case InSequence(_) => 3
    case After(_) => 4
    case WillOnce(_) => 5
    case WillRepeatedly(_) => 6
    case RetiresOnSaturation => 7
  }

  /** What the clauses have recorded in an expectation; `failures` counts the reported property violations. */
  datatype Spec<!Arg, A> = Spec(
    lastClause: nat,
    failures: nat,
    extraMatcher: Arg -> bool,
    cardinalitySpecified: bool,
    cardinality: Cardinality,
    prerequisites: set<nat>,
    once: seq<A>,
    repeated: Option<A>,
    retiresOnSaturation: bool)

  function NewSpec<Arg, A>(default: Cardinality): Spec<Arg, A> {
    Spec(0, 0, _ => true, false, default, {}, [], None, false)
  }

  /** The check each clause makes against the previous one. */
  predicate Accepts<Arg, A>(last: nat, c: Clause<Arg, A>) {
    match c
    case With(_) => last < 1
    case Times(_) => last < 2
    case InSequence(_) => last <= 3
    case After(_) => last <= 4
    case WillOnce(_) => last <= 5
    case WillRepeatedly(_) => last < 6
    case RetiresOnSaturation => last < 7
  }

  /** A failed check is reported, and the clause takes effect all the same. */
  function Record<Arg, A>(s: Spec<Arg, A>, c: Clause<Arg, A>): Spec<Arg, A> {
    var t := s.(failures := s.failures + (if Accepts(s.lastClause, c) then 0 else 1), lastClause := Rank(c));
    match c
    case With(m) => t.(extraMatcher := m)
    case Times(n) => t.(cardinality := n, cardinalitySpecified := true)
    case InSequence(last) =>
      if last.Some? then t.(prerequisites := t.prerequisites + {last.value}) else t
    case After(es) => t.(prerequisites := t.prerequisites + es)
    case WillOnce(a) =>
      var once := t.once + [a];
      if t.cardinalitySpecified then t.(once := once)
      else t.(once := once, cardinality := Exactly(|once|))
    case WillRepeatedly(a) =>
      if t.cardinalitySpecified then t.(repeated := Some(a))
      else t.(repeated := Some(a), cardinality := AtLeast(|t.once|))
    case RetiresOnSaturation => t.(retiresOnSaturation := true)
  }

  /** The expectation under construction: each clause is a method that changes its fields. */
  class TypedExpectation<!Arg, A> {
    var lastClause: nat
    var failures: nat
    var extraMatcher: Arg -> bool
    var cardinalitySpecified: bool
    var cardinality: Cardinality
    var prerequisites: set<nat>
    var actions: seq<A>
    var repeatedAction: Option<A>
    var retires: bool

    ghost function Recorded(): Spec<Arg, A>
      reads this
    {
      Spec(lastClause, failures, extraMatcher, cardinalitySpecified, cardinality,
           prerequisites, actions, repeatedAction, retires)
    }

    constructor (default: Cardinality)
      ensures Recorded() == NewSpec(default)
    {
      var initial: Spec<Arg, A> := NewSpec(default);
      lastClause, failures := 0, 0;
      extraMatcher := initial.extraMatcher;
      cardinalitySpecified, cardinality := false, default;
      prerequisites, actions, repeatedAction, retires := {}, [], None, false;
    }

    method ExpectSpecProperty(property: bool)
      modifies this`failures
      ensures failures == old(failures) + if property then 0 else 1
    {
      if !property {
        failures := failures + 1;
      }
    }

    method With(m: Arg -> bool)
      modifies this
      ensures Recorded() == Record(old(Recorded()), Clause.With(m))
    {
      if lastClause == 1 {
        ExpectSpecProperty(false);
      } else {
        ExpectSpecProperty(lastClause < 1);
      }
      lastClause := 1;
      extraMatcher := m;
    }

    method Times(c: Cardinality)
      modifies this
      ensures Recorded() == Record(old(Recorded()), Clause.Times(c))
    {
      if lastClause == 2 {
        ExpectSpecProperty(false);
      } else {
        ExpectSpecProperty(lastClause < 2);
      }
      lastClause := 2;
      cardinalitySpecified, cardinality := true, c;
    }

    method InSequence(last: Option<nat>)
      modifies this
      ensures Recorded() == Record(old(Recorded()), Clause.InSequence(last))
    {
      ExpectSpecProperty(lastClause <= 3);
      lastClause := 3;
      if last.Some? {
        prerequisites := prerequisites + {last.value};
      }
    }

    method After(es: set<nat>)
      modifies this
      ensures Recorded() == Record(old(Recorded()), Clause.After(es))
    {
      ExpectSpecProperty(lastClause <= 4);
      lastClause := 4;
      var left := es;
      while left != {}
        invariant left <= es && prerequisites == old(prerequisites) + (es - left)
        invariant Recorded() ==
          old(Recorded()).(failures := failures, lastClause := 4, prerequisites := prerequisites)
        invariant failures == old(failures) + if old(lastClause) <= 4 then 0 else 1
        decreases left
      {
        var e :| e in left;
        prerequisites := prerequisites + {e};
        left := left - {e};
      }
    }

    method WillOnce(a: A)
      modifies this
      ensures Recorded() == Record(old(Recorded()), Clause.WillOnce(a))
    {
      ExpectSpecProperty(lastClause <= 5);
      lastClause := 5;
      actions := actions + [a];
      if !cardinalitySpecified {
        cardinality := Exactly(|actions|);
      }
    }

    method WillRepeatedly(a: A)
      modifies this
      ensures Recorded() == Record(old(Recorded()), Clause.WillRepeatedly(a))
    {
      if lastClause == 6 {
        ExpectSpecProperty(false);
      } else {
        ExpectSpecProperty(lastClause < 6);
      }
      lastClause := 6;
      repeatedAction := Some(a);
      if !cardinalitySpecified {
        cardinality := AtLeast(|actions|);
      }
    }

    method RetiresOnSaturation()
      modifies this
      ensures Recorded() == Record(old(Recorded()), Clause.RetiresOnSaturation)
    {
      ExpectSpecProperty(lastClause < 7);
      lastClause := 7;
      retires := true;
    }
  }

  // ----- A whole statement -----

  function Build<Arg, A>(default: Cardinality, cs: seq<Clause<Arg, A>>): Spec<Arg, A> {
    if cs == [] then NewSpec(default)
    else Record(Build(default, cs[..|cs| - 1]), cs[|cs| - 1])
  }

  predicate Repeatable(rank: nat) {
    3 <= rank <= 5
  }

  ghost predicate Block<Arg, A>(cs: seq<Clause<Arg, A>>, rank: nat) {
    forall i :: 0 <= i < |cs| ==> Rank(cs[i]) == rank
  }

  /** The first `n` clauses are those of the given rank: at most one, unless it may be repeated. */
  ghost predicate Front<Arg, A>(cs: seq<Clause<Arg, A>>, rank: nat, n: nat)
    requires n <= |cs|
  {
    (n <= 1 || Repeatable(rank)) && Block(cs[..n], rank)
  }

  /**
   The documented grammar from the clause of the given rank on: a block of that
   clause, at most one unless it may be repeated, then the later clauses. From
   rank 1: With? Times? InSequence* After* WillOnce* WillRepeatedly? RetiresOnSaturation?
   */
  ghost predicate Grammar<Arg, A>(cs: seq<Clause<Arg, A>>, rank: nat)
    decreases 8 - rank
  {
    if rank >= 8 then cs == []
    else
      exists n: nat :: n <= |cs| && Front(cs, rank, n) && Grammar(cs[n..], rank + 1)
  }

  /** Each clause accepts its predecessor, and none comes before the given rank. */
  ghost predicate Ordered<Arg, A>(cs: seq<Clause<Arg, A>>, rank: nat) {
    && (forall i :: 0 <= i < |cs| ==> Rank(cs[i]) >= rank)
    && (forall i :: 0 < i < |cs| ==> Accepts(Rank(cs[i - 1]), cs[i]))
  }

  lemma {:induction false} Ascending<Arg, A>(cs: seq<Clause<Arg, A>>, rank: nat, i: nat, j: nat)
    requires Ordered(cs, rank) && i <= j < |cs|
    ensures Rank(cs[i]) <= Rank(cs[j])
    decreases j
  {
    if i < j {
      Ascending(cs, rank, i, j - 1);
    }
  }

  lemma BlockThenOrdered<Arg, A>(cs: seq<Clause<Arg, A>>, rank: nat, n: nat)
    requires 1 <= rank <= 7 && n <= |cs| && Front(cs, rank, n) && Ordered(cs[n..], rank + 1)
    ensures Ordered(cs, rank)
  {
  }

  lemma {:induction false} OrderedSplits<Arg, A>(cs: seq<Clause<Arg, A>>, rank: nat) returns (n: nat)
    requires 1 <= rank <= 7 && Ordered(cs, rank)
    ensures n <= |cs| && Front(cs, rank, n) && Ordered(cs[n..], rank + 1)
  {
    n := 0;
    while n < |cs| && Rank(cs[n]) == rank
      invariant n <= |cs| && Block(cs[..n], rank) && (n <= 1 || Repeatable(rank))
    {
      assert n > 0 ==> cs[..n][n - 1] == cs[n - 1] && Accepts(Rank(cs[n - 1]), cs[n]);
      n := n + 1;
    }
    forall i | 0 <= i < |cs[n..]| ensures Rank(cs[n..][i]) >= rank + 1 {
      Ascending(cs, rank, n, n + i);
    }
    forall i | 0 < i < |cs[n..]| ensures Accepts(Rank(cs[n..][i - 1]), cs[n..][i]) {
      assert cs[n..][i] == cs[n + i] && cs[n..][i - 1] == cs[n + i - 1];
    }
  }

  lemma {:induction false} DerivedIsOrdered<Arg, A>(cs: seq<Clause<Arg, A>>, rank: nat)
    requires 1 <= rank <= 8 && Grammar(cs, rank)
    ensures Ordered(cs, rank)
    decreases 8 - rank
  {
    if rank < 8 {
      var n: nat :|
        n <= |cs| && Front(cs, rank, n) && Grammar(cs[n..], rank + 1);
      DerivedIsOrdered(cs[n..], rank + 1);
      BlockThenOrdered(cs, rank, n);
    }
  }

  lemma {:induction false} OrderedIsDerived<Arg, A>(cs: seq<Clause<Arg, A>>, rank: nat)
    requires 1 <= rank <= 8 && Ordered(cs, rank)
    ensures Grammar(cs, rank)
    decreases 8 - rank
  {
    if rank == 8 {
      assert cs != [] ==> Rank(cs[0]) <= 7;
    } else {
      var n := OrderedSplits(cs, rank);
      OrderedIsDerived(cs[n..], rank + 1);
    }
  }

  /** The clauses that accept one another are exactly the ones the grammar derives. */
  lemma GrammarIsOrder<Arg, A>(cs: seq<Clause<Arg, A>>, rank: nat)
    requires 1 <= rank <= 8
    ensures Grammar(cs, rank) <==> Ordered(cs, rank)
  {
    if Grammar(cs, rank) {
      DerivedIsOrdered(cs, rank);
    }
    if Ordered(cs, rank) {
      OrderedIsDerived(cs, rank);
    }
  }

  lemma RecordChecks<Arg, A>(s: Spec<Arg, A>, c: Clause<Arg, A>)
    ensures Record(s, c).lastClause == Rank(c)
    ensures Record(s, c).failures == s.failures + if Accepts(s.lastClause, c) then 0 else 1
  {
  }

  lemma OrderedAppend<Arg, A>(init: seq<Clause<Arg, A>>, c: Clause<Arg, A>)
    ensures Ordered(init + [c], 1) <==>
      Ordered(init, 1) && Accepts(if init == [] then 0 else Rank(init[|init| - 1]), c)
  {
    var cs := init + [c];
    assert forall i :: 0 <= i < |init| ==> cs[i] == init[i];
    if Ordered(cs, 1) {
      forall i | 0 < i < |init| ensures Accepts(Rank(init[i - 1]), init[i]) {
        assert Accepts(Rank(cs[i - 1]), cs[i]);
      }
      if init != [] {
        assert Accepts(Rank(cs[|init| - 1]), cs[|init|]);
      }
    }
  }

  lemma {:induction false} FailuresAreDisorder<Arg, A>(default: Cardinality, cs: seq<Clause<Arg, A>>)
    ensures Build(default, cs).failures == 0 <==> Ordered(cs, 1)
    ensures Build(default, cs).lastClause == if cs == [] then 0 else Rank(cs[|cs| - 1])
  {
    if cs != [] {
      hide Ordered;
      var init, c := cs[..|cs| - 1], cs[|cs| - 1];
      assert cs == init + [c];
      FailuresAreDisorder(default, init);
      RecordChecks(Build(default, init), c);
      OrderedAppend(init, c);
    }
  }

  /** What the documentation lets stand directly behind a clause, kind by kind. */
  predicate MayFollow<Arg, A>(c: Clause<Arg, A>, d: Clause<Arg, A>) {
    match c
    case With(_) => !d.With?
    case Times(_) => !d.With? && !d.Times?
    case InSequence(_) => !d.With? && !d.Times?
    case After(_) => !d.With? && !d.Times? && !d.InSequence?
    case WillOnce(_) => d.WillOnce? || d.WillRepeatedly? || d.RetiresOnSaturation?
    case WillRepeatedly(_) => d.RetiresOnSaturation?
    case RetiresOnSaturation => false
  }

  lemma AcceptsSpelledOut<Arg, A>(c: Clause<Arg, A>, d: Clause<Arg, A>)
    ensures Accepts(Rank(c), d) <==> MayFollow(c, d)
    ensures Accepts(0, d)
  {
  }

  /** No clause reports a failure exactly when each stands behind one that it may follow. */
  lemma ChecksDecideOrder<Arg, A>(default: Cardinality, cs: seq<Clause<Arg, A>>)
    ensures Build(default, cs).failures == 0 <==> forall i :: 0 < i < |cs| ==> MayFollow(cs[i - 1], cs[i])
  {
    FailuresAreDisorder(default, cs);
    forall i | 0 < i < |cs| ensures Accepts(Rank(cs[i - 1]), cs[i]) <==> MayFollow(cs[i - 1], cs[i]) {
      AcceptsSpelledOut(cs[i - 1], cs[i]);
    }
  }

  /** No clause reports a failure exactly when the statement follows the documented grammar. */
  lemma ChecksDecideGrammar<Arg, A>(default: Cardinality, cs: seq<Clause<Arg, A>>)
    ensures Build(default, cs).failures == 0 <==> Grammar(cs, 1)
  {
    FailuresAreDisorder(default, cs);
    GrammarIsOrder(cs, 1);
  }

  /** The actions of the WillOnce clauses, in order. */
  function OnceActions<Arg, A>(cs: seq<Clause<Arg, A>>): seq<A> {
    if cs == [] then []
    else OnceActions(cs[..|cs| - 1]) + if cs[|cs| - 1].WillOnce? then [cs[|cs| - 1].action] else []
  }

  /** The cardinality follows the action clauses. */
  ghost predicate FromActions<Arg, A>(s: Spec<Arg, A>) {
    && !s.cardinalitySpecified
    && (s.repeated.Some? ==> s.lastClause >= 6 && s.cardinality == AtLeast(|s.once|))
    && (s.repeated.None? && s.once != [] ==> s.cardinality == Exactly(|s.once|))
  }

  lemma RecordActions<Arg, A>(s: Spec<Arg, A>, c: Clause<Arg, A>)
    requires FromActions(s) && Accepts(s.lastClause, c) && !c.Times?
    ensures FromActions(Record(s, c))
    ensures Record(s, c).once == s.once + if c.WillOnce? then [c.action] else []
    ensures Record(s, c).repeated.Some? <==> s.repeated.Some? || c.WillRepeatedly?
  {
  }

  /**
   A failure-free statement with at least one WillOnce and no Times gets its
   cardinality from its actions: exactly as many calls, or at least as many
   when a WillRepeatedly follows.
   */
  lemma {:induction false} CardinalityFromActions<Arg, A>(default: Cardinality, cs: seq<Clause<Arg, A>>)
    requires Build(default, cs).failures == 0
    requires forall c :: c in cs ==> !c.Times?
    ensures var s := Build(default, cs);
      && s.once == OnceActions(cs)
      && (s.repeated.Some? <==> exists c :: c in cs && c.WillRepeatedly?)
      && (s.repeated.Some? ==> s.cardinality == AtLeast(|s.once|))
      && (s.repeated.None? && s.once != [] ==> s.cardinality == Exactly(|s.once|))
    ensures FromActions(Build(default, cs))
  {
    if cs != [] {
      var init, c := cs[..|cs| - 1], cs[|cs| - 1];
      assert forall d :: d in cs <==> d in init || d == c;
      RecordChecks(Build(default, init), c);
      CardinalityFromActions(default, init);
      RecordActions(Build(default, init), c);
    }
  }

  // ----- What a statement records, clause by clause -----

  /** The clause that makes `p` a prerequisite. */
  predicate Names<Arg, A>(c: Clause<Arg, A>, p: nat) {
    (c.After? && p in c.expectations) || (c.InSequence? && c.last == Some(p))
  }

  /** Position `i` holds the last clause of the given rank. */
  ghost predicate LastOf<Arg, A>(cs: seq<Clause<Arg, A>>, rank: nat, i: nat) {
    && i < |cs| && Rank(cs[i]) == rank
    && forall j :: i < j < |cs| ==> Rank(cs[j]) != rank
  }

  ghost predicate NoneOf<Arg, A>(cs: seq<Clause<Arg, A>>, rank: nat) {
    forall j :: 0 <= j < |cs| ==> Rank(cs[j]) != rank
  }

  /** One more clause is the last of its rank, and changes nothing for the other ranks. */
  lemma LastAppend<Arg, A>(init: seq<Clause<Arg, A>>, c: Clause<Arg, A>, rank: nat, i: nat)
    ensures Rank(c) == rank ==> (LastOf(init + [c], rank, i) <==> i == |init|) && !NoneOf(init + [c], rank)
    ensures Rank(c) != rank ==>
      (LastOf(init + [c], rank, i) <==> LastOf(init, rank, i)) && (NoneOf(init + [c], rank) <==> NoneOf(init, rank))
    ensures LastOf(init, rank, i) ==> i < |init| && (init + [c])[i] == init[i]
  {
    var cs := init + [c];
    assert cs[|init|] == c;
    assert forall j :: 0 <= j < |init| ==> cs[j] == init[j];
    if Rank(c) != rank && NoneOf(cs, rank) {
      assert forall j :: 0 <= j < |init| ==> Rank(cs[j]) != rank;
    }
    if Rank(c) != rank && LastOf(cs, rank, i) {
      assert forall j :: i < j < |init| ==> Rank(cs[j]) != rank;
    }
  }

  /** What one clause adds to each field. */
  lemma RecordParts<Arg, A>(s: Spec<Arg, A>, c: Clause<Arg, A>)
    ensures forall p :: p in Record(s, c).prerequisites <==> p in s.prerequisites || Names(c, p)
    ensures Record(s, c).once == s.once + if c.WillOnce? then [c.action] else []
    ensures Record(s, c).retiresOnSaturation <==> s.retiresOnSaturation || c.RetiresOnSaturation?
    ensures Record(s, c).repeated == if c.WillRepeatedly? then Some(c.action) else s.repeated
    ensures Record(s, c).extraMatcher == if c.With? then c.matcher else s.extraMatcher
  {
  }

  /** The prerequisites are exactly what some After names, or some InSequence finds last in its sequence. */
  lemma {:induction false} PrerequisitesAreNamed<Arg, A>(default: Cardinality, cs: seq<Clause<Arg, A>>, p: nat)
    ensures p in Build(default, cs).prerequisites <==> exists i :: 0 <= i < |cs| && Names(cs[i], p)
  {
    if cs != [] {
      hide Record, Names;
      var init, c := cs[..|cs| - 1], cs[|cs| - 1];
      PrerequisitesAreNamed(default, init, p);
      RecordParts(Build(default, init), c);
      assert forall i :: 0 <= i < |init| ==> init[i] == cs[i];
      assert Names(c, p) ==> Names(cs[|cs| - 1], p);
    }
  }

  /** The actions of the WillOnce clauses are kept in order. */
  lemma {:induction false} ActionsAreKept<Arg, A>(default: Cardinality, cs: seq<Clause<Arg, A>>)
    ensures Build(default, cs).once == OnceActions(cs)
  {
    if cs != [] {
      hide Record;
      ActionsAreKept(default, cs[..|cs| - 1]);
      RecordParts(Build(default, cs[..|cs| - 1]), cs[|cs| - 1]);
    }
  }

  /** An expectation retires on saturation exactly if some clause asks for it. */
  lemma {:induction false} RetiresIfAsked<Arg, A>(default: Cardinality, cs: seq<Clause<Arg, A>>)
    ensures Build(default, cs).retiresOnSaturation <==> exists i :: 0 <= i < |cs| && cs[i].RetiresOnSaturation?
  {
    if cs != [] {
      hide Record;
      var init, c := cs[..|cs| - 1], cs[|cs| - 1];
      RetiresIfAsked(default, init);
      RecordParts(Build(default, init), c);
      assert forall i :: 0 <= i < |init| ==> init[i] == cs[i];
      assert c.RetiresOnSaturation? ==> cs[|cs| - 1].RetiresOnSaturation?;
    }
  }

  /** Of several WillRepeatedly clauses the last one counts. */
  lemma {:induction false} LastRepeatedCounts<Arg, A>(default: Cardinality, cs: seq<Clause<Arg, A>>, i: nat)
    ensures LastOf(cs, 6, i) ==> Build(default, cs).repeated == Some(cs[i].action)
    ensures NoneOf(cs, 6) ==> Build(default, cs).repeated == None
  {
    if cs != [] {
      hide LastOf, NoneOf, Record;
      var init, c := cs[..|cs| - 1], cs[|cs| - 1];
      assert cs == init + [c];
      RecordParts(Build(default, init), c);
      LastAppend(init, c, 6, i);
      LastRepeatedCounts(default, init, i);
    }
  }

  /** The last With counts; without one every argument will do. */
  lemma {:induction false} LastWithCounts<Arg, A>(default: Cardinality, cs: seq<Clause<Arg, A>>, i: nat, arg: Arg)
    ensures LastOf(cs, 1, i) ==> Build(default, cs).extraMatcher(arg) == cs[i].matcher(arg)
    ensures NoneOf(cs, 1) ==> Build(default, cs).extraMatcher(arg)
  {
    if cs != [] {
      hide LastOf, NoneOf, Record;
      var init, c := cs[..|cs| - 1], cs[|cs| - 1];
      assert cs == init + [c];
      RecordParts(Build(default, init), c);
      LastAppend(init, c, 1, i);
      LastWithCounts(default, init, i, arg);
    }
  }

  /** The last Times counts, whatever actions stand around it. Without Times and actions it is the default. */
  lemma {:induction false} LastTimesCounts<Arg, A>(default: Cardinality, cs: seq<Clause<Arg, A>>, i: nat)
    ensures LastOf(cs, 2, i) ==> Build(default, cs).cardinality == cs[i].cardinality
    ensures Build(default, cs).cardinalitySpecified <==> !NoneOf(cs, 2)
    ensures NoneOf(cs, 2) && NoneOf(cs, 5) && NoneOf(cs, 6) ==> Build(default, cs).cardinality == default
  {
    if cs != [] {
      hide LastOf, NoneOf, Accepts;
      var init, c := cs[..|cs| - 1], cs[|cs| - 1];
      assert cs == init + [c];
      LastAppend(init, c, 2, i);
      LastAppend(init, c, 5, i);
      LastAppend(init, c, 6, i);
      LastTimesCounts(default, init, i);
    }
  }

  /** What the factories' cardinalities allow, in numbers of calls. */
  lemma CallsAllowed(min: nat, max: nat, n: nat)
    ensures min <= max ==>
      (Between(min, max).satisfied(n) <==> min <= n && !Between(min, max).OverSaturated(n))
    ensures min <= max ==> (Between(min, max).OverSaturated(n) <==> n > max)
    ensures Between(min, max).saturated(n) <==> n >= max
    ensures Exactly(max).satisfied(n) <==> n == max
    ensures AtMost(max).satisfied(n) <==> n <= max
    ensures AtLeast(min).satisfied(n) <==> n >= min
    ensures Exactly(max).saturated(n) <==> n >= max
    ensures !AtLeast(min).saturated(n)
  {
  }

  /** With the factories' cardinalities, and others that stay saturated, so does that of every statement. */
  lemma {:induction false} StatementsAreSteady<Arg, A>(default: Cardinality, cs: seq<Clause<Arg, A>>)
    requires Steady(default) && forall i :: 0 <= i < |cs| && cs[i].Times? ==> Steady(cs[i].cardinality)
    ensures Steady(Build(default, cs).cardinality)
  {
    if cs != [] {
      var init := cs[..|cs| - 1];
      assert forall i :: 0 <= i < |init| ==> init[i] == cs[i];
      StatementsAreSteady(default, init);
    }
  }
}
