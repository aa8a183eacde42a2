/**
 The matcher combinators. `MatchAndExplain` takes a fast path when nobody
 listens and collects explanations when somebody does, and scans containers in
 one pass; `Meaning` says what a matcher stands for.
 */
module Matchers {

  /** The values matched: scalars, containers and pairs. */
  datatype Value = Atom(n: int) | List(items: seq<Value>) | Two(first: Value, second: Value)

  /** An explanation, up to the wording of numbers and printed values. */
  datatype Word = Say(s: string) | Print(v: Value) | Number(n: nat)
  type Text = seq<Word>

  /** `Leaf` is any matcher that decides and explains by itself. */
  datatype Matcher =
    | Leaf(p: Value -> bool, why: Value -> Text)
    | Not(m: Matcher)
    | AllOf(ms: seq<Matcher>)
    | AnyOf(ms: seq<Matcher>)
    | ElementsAre(ms: seq<Matcher>)
    | Each(m: Matcher)
    | Contains(m: Matcher)
    | Pointwise(m: Matcher, rhs: seq<Value>)
    | Key(m: Matcher)
    | Pair(m1: Matcher, m2: Matcher)
    | Projected(get: Value -> Value, m: Matcher)   // Property, Field, Pointee, ResultOf

  /** What a matcher stands for. A container or pair matcher is only ever applied to such a value. */
  ghost predicate Meaning(m: Matcher, v: Value) {
    match m
    case Leaf(p, _) => p(v)
    case Not(m) => !Meaning(m, v)
    case AllOf(ms) => forall i :: 0 <= i < |ms| ==> Meaning(ms[i], v)
    case AnyOf(ms) => exists i :: 0 <= i < |ms| && Meaning(ms[i], v)
    case ElementsAre(ms) =>
      && v.List? && |v.items| == |ms|
      && forall i :: 0 <= i < |ms| ==> Meaning(ms[i], v.items[i])
    case Each(m) => v.List? && forall i :: 0 <= i < |v.items| ==> Meaning(m, v.items[i])
    case Contains(m) => v.List? && exists i :: 0 <= i < |v.items| && Meaning(m, v.items[i])
    case Pointwise(m, rhs) =>
      && v.List? && |v.items| == |rhs|
      && forall i :: 0 <= i < |rhs| ==> Meaning(m, Two(v.items[i], rhs[i]))
    case Key(m) => v.Two? && Meaning(m, v.first)
    case Pair(m1, m2) => v.Two? && Meaning(m1, v.first) && Meaning(m2, v.second)
    case Projected(get, m) => Meaning(m, get(v))
  }

  function Explained(prefix: string, text: Text): Text {
    if text == [] then [] else [Say(prefix)] + text
  }

  function Joined(a: Text, b: Text): Text {
    if a == [] then b else if b == [] then a else a + [Say(", and ")] + b
  }

  /** What reaches the listener. */
  function Told(interested: bool, text: Text): Text {
    if interested then text else []
  }

  /** Matching with a listener that ignores the explanation. */
  method Matches(m: Matcher, v: Value) returns (matches: bool)
    ensures matches == Meaning(m, v)
    decreases m, 2
  {
    var text;
    matches, text := MatchAndExplain(m, v, false);
  }

  /** The verdict does not depend on who listens, and nothing is said to a listener that is not interested. */
  method MatchAndExplain(m: Matcher, v: Value, interested: bool) returns (matches: bool, text: Text)
    ensures matches == Meaning(m, v)
    ensures !interested ==> text == []
    decreases m, 1
  {
    match m
    case Leaf(p, why) => return p(v), Told(interested, why(v));
    case Not(inner) =>
      matches, text := MatchAndExplain(inner, v, interested);
      matches := !matches;
    case AllOf(_) => matches, text := ExplainAllOf(m, v, interested);
    case AnyOf(_) => matches, text := ExplainAnyOf(m, v, interested);
    case ElementsAre(_) => matches, text := ExplainElementsAre(m, v, interested);
    case Each(inner) => matches, text := ExplainQuantifier(m, inner, true, v, interested);
    case Contains(inner) => matches, text := ExplainQuantifier(m, inner, false, v, interested);
    case Pointwise(_, _) => matches, text := ExplainPointwise(m, v, interested);
    case Key(inner) =>
      if !v.Two? {
        return false, [];
      }
      var why;
      matches, why := MatchAndExplain(inner, v.first, true);
      text := Told(interested, Explained("whose first field is a value ", why));
    case Pair(_, _) => matches, text := ExplainPair(m, v, interested);
    case Projected(get, inner) =>
      if !interested {
        matches := Matches(inner, get(v));
        return matches, [];
      }
      var why;
      matches, why := MatchAndExplain(inner, get(v), true);
      text := [Print(get(v))] + Explained(", ", why);
  }

  method ExplainAllOf(m: Matcher, v: Value, interested: bool) returns (matches: bool, text: Text)
    requires m.AllOf?
    ensures matches == Meaning(m, v)
    ensures !interested ==> text == []
    decreases m, 0
  {
    var all: Text := [];
    for i := 0 to |m.ms|
      invariant forall j :: 0 <= j < i ==> Meaning(m.ms[j], v)
    {
      var ok, why := MatchAndExplain(m.ms[i], v, true);
      if !ok {
        return false, Told(interested, why);
      }
      all := Joined(all, why);
    }
    return true, Told(interested, all);
  }

  method ExplainAnyOf(m: Matcher, v: Value, interested: bool) returns (matches: bool, text: Text)
    requires m.AnyOf?
    ensures matches == Meaning(m, v)
    ensures !interested ==> text == []
    decreases m, 0
  {
    var none: Text := [];
    for i := 0 to |m.ms|
      invariant forall j :: 0 <= j < i ==> !Meaning(m.ms[j], v)
    {
      var ok, why := MatchAndExplain(m.ms[i], v, true);
      if ok {
        return true, Told(interested, why);
      }
      none := Joined(none, why);
    }
    return false, Told(interested, none);
  }

  /** One pass over the elements: pairs first, then counting what is left. */
  method ExplainElementsAre(m: Matcher, v: Value, interested: bool) returns (matches: bool, text: Text)
    requires m.ElementsAre?
    ensures matches == Meaning(m, v)
    ensures !interested ==> text == []
    decreases m, 0
  {
    if !v.List? {
      return false, [];
    }
    var count := |m.ms|;
    var explanations: seq<Text> := seq(count, _ => []);
    var it, examPos, mismatchFound := 0, 0, false;
    while it != |v.items| && examPos != count && !mismatchFound
      invariant it == examPos <= |v.items| && examPos <= count && |explanations| == count
      invariant forall j :: 0 <= j < examPos ==> Meaning(m.ms[j], v.items[j])
      invariant mismatchFound ==>
        examPos < |v.items| && examPos < count && !Meaning(m.ms[examPos], v.items[examPos])
      decreases |v.items| - it, !mismatchFound
    {
      var ok;
      if interested {
        var why;
        ok, why := MatchAndExplain(m.ms[examPos], v.items[it], true);
        explanations := explanations[examPos := why];
      } else {
        ok := Matches(m.ms[examPos], v.items[it]);
      }
      if !ok {
        mismatchFound := true;
      } else {
        it, examPos := it + 1, examPos + 1;
      }
    }
    var actualCount := examPos;
    while it != |v.items|
      invariant actualCount == it <= |v.items|
    {
      actualCount, it := actualCount + 1, it + 1;
    }
    if actualCount != count {
      return false,
        Told(interested && actualCount != 0, [Say("which has "), Number(actualCount), Say(" elements")]);
    }
    if mismatchFound {
      return false,
        Told(interested, [Say("whose element #"), Number(examPos), Say(" doesn't match")]
                           + Explained(", ", explanations[examPos]));
    }
    text := [];
    if interested {
      for i := 0 to count {
        if explanations[i] != [] {
          text := text + (if text != [] then [Say(",\nand ")] else [])
            + [Say("whose element #"), Number(i), Say(" matches, ")] + explanations[i];
        }
      }
    }
    return true, text;
  }

  /** The loop Each and Contains share: it stops at the first element that decides. */
  method ExplainQuantifier(m: Matcher, inner: Matcher, all: bool, v: Value, interested: bool)
    returns (matches: bool, text: Text)
    requires m == if all then Each(inner) else Contains(inner)
    ensures matches == Meaning(m, v)
    ensures !interested ==> text == []
    decreases m, 0
  {
    if !v.List? {
      return false, [];
    }
    for i := 0 to |v.items|
      invariant forall j :: 0 <= j < i ==> Meaning(inner, v.items[j]) == all
    {
      var ok, why := MatchAndExplain(inner, v.items[i], true);
      if ok != all {
        text := [Say("whose element #"), Number(i), Say(if ok then " matches" else " doesn't match")];
        return !all, Told(interested, text + Explained(", ", why));
      }
    }
    return all, [];
  }

  method ExplainPointwise(m: Matcher, v: Value, interested: bool) returns (matches: bool, text: Text)
    requires m.Pointwise?
    ensures matches == Meaning(m, v)
    ensures !interested ==> text == []
    decreases m, 0
  {
    if !v.List? {
      return false, [];
    }
    var actualSize := |v.items|;
    if actualSize != |m.rhs| {
      return false, Told(interested, [Say("which contains "), Number(actualSize), Say(" values")]);
    }
    for i := 0 to actualSize
      invariant forall j :: 0 <= j < i ==> Meaning(m.m, Two(v.items[j], m.rhs[j]))
    {
      var both := Two(v.items[i], m.rhs[i]);
      if interested {
        var ok, why := MatchAndExplain(m.m, both, true);
        if !ok {
          return false,
            [Say("where the value pair "), Print(both), Say(" at index #"), Number(i), Say(" don't match")]
            + Explained(", ", why);
        }
      } else {
        var ok := Matches(m.m, both);
        if !ok {
          return false, [];
        }
      }
    }
    return true, [];
  }

  method ExplainPair(m: Matcher, v: Value, interested: bool) returns (matches: bool, text: Text)
    requires m.Pair?
    ensures matches == Meaning(m, v)
    ensures !interested ==> text == []
    decreases m, 0
  {
    if !v.Two? {
      return false, [];
    }
    if !interested {
      matches := Matches(m.m1, v.first);
      if matches {
        matches := Matches(m.m2, v.second);
      }
      return matches, [];
    }
    var ok1, why1 := MatchAndExplain(m.m1, v.first, true);
    if !ok1 {
      return false, [Say("whose first field does not match")] + Explained(", ", why1);
    }
    var ok2, why2 := MatchAndExplain(m.m2, v.second, true);
    if !ok2 {
      return false, [Say("whose second field does not match")] + Explained(", ", why2);
    }
    text := [Say("whose both fields match")] + Explained(", where the first field is a value ", why1);
    if why2 != [] {
      text := text + [Say(if why1 != [] then ", and " else ", where "), Say("the second field is a value ")] + why2;
    }
    return true, text;
  }

  // ----- Laws -----

  /** A container of no elements, and one of a first element and the rest. */
  lemma ElementsOneByOne(m: Matcher, ms: seq<Matcher>, v: Value, vs: seq<Value>)
    ensures Meaning(ElementsAre([]), List([]))
    ensures !Meaning(ElementsAre([]), List([v] + vs)) && !Meaning(ElementsAre([m] + ms), List([]))
    ensures Meaning(ElementsAre([m] + ms), List([v] + vs))
       <==> Meaning(m, v) && Meaning(ElementsAre(ms), List(vs))
  {
    var all, items := [m] + ms, [v] + vs;
    assert forall i :: 0 <= i < |ms| ==> all[i + 1] == ms[i];
    assert forall i :: 0 <= i < |vs| ==> items[i + 1] == vs[i];
    if |ms| == |vs| && Meaning(m, v) && Meaning(ElementsAre(ms), List(vs)) {
      forall i | 0 <= i < |all| ensures Meaning(all[i], items[i]) {
        if i > 0 {
          assert Meaning(ms[i - 1], vs[i - 1]);
        }
      }
    }
    if Meaning(ElementsAre(all), List(items)) {
      assert all[0] == m && items[0] == v && Meaning(all[0], items[0]);
      forall i | 0 <= i < |ms| ensures Meaning(ms[i], vs[i]) {
        assert Meaning(all[i + 1], items[i + 1]);
      }
    }
  }

  function First(v: Value): Value {
    if v.Two? then v.first else v
  }

  function Second(v: Value): Value {
    if v.Two? then v.second else v
  }

  /** Each is ElementsAre with the same matcher everywhere. */
  lemma EachIsElementsAre(m: Matcher, items: seq<Value>)
    ensures Meaning(Each(m), List(items)) <==> Meaning(ElementsAre(seq(|items|, _ => m)), List(items))
  {
    var all := seq(|items|, _ => m);
    assert forall i :: 0 <= i < |items| ==> Meaning(all[i], items[i]) == Meaning(m, items[i]);
  }

  /** The matcher for one element that Pointwise makes of its own and the element on the other side. */
  function Against(m: Matcher, right: Value): Matcher {
    Projected(v => Two(v, right), m)
  }

  /** Pointwise is ElementsAre with each element held against the other side. */
  lemma PointwiseIsElementsAre(m: Matcher, rhs: seq<Value>, items: seq<Value>)
    ensures var ms := seq(|rhs|, i requires 0 <= i < |rhs| => Against(m, rhs[i]));
      Meaning(Pointwise(m, rhs), List(items)) <==> Meaning(ElementsAre(ms), List(items))
  {
    var ms := seq(|rhs|, i requires 0 <= i < |rhs| => Against(m, rhs[i]));
    if |items| == |rhs| {
      forall i | 0 <= i < |rhs| ensures Meaning(ms[i], items[i]) == Meaning(m, Two(items[i], rhs[i])) {
        assert ms[i] == Against(m, rhs[i]);
      }
    }
  }

  /** Key is a projection, and a projection is decided by the value it yields. */
  lemma KeyIsProjection(m: Matcher, a: Value, b: Value)
    ensures Meaning(Key(m), Two(a, b)) <==> Meaning(Projected(First, m), Two(a, b))
    ensures Meaning(Projected(_ => b, m), a) <==> Meaning(m, b)
  {
  }

  lemma AllOfTwo(m: Matcher, n: Matcher, v: Value)
    ensures Meaning(AllOf([m, n]), v) <==> Meaning(m, v) && Meaning(n, v)
  {
    assert Meaning(AllOf([m, n]), v) <==> Meaning([m, n][0], v) && Meaning([m, n][1], v);
  }

  /** Pair is a test of each field. */
  lemma PairIsBothFields(m: Matcher, n: Matcher, a: Value, b: Value)
    ensures Meaning(Pair(m, n), Two(a, b)) <==> Meaning(AllOf([Key(m), Projected(Second, n)]), Two(a, b))
  {
    AllOfTwo(Key(m), Projected(Second, n), Two(a, b));
    assert Meaning(Projected(Second, n), Two(a, b)) == Meaning(n, b);
  }

  /** One matcher alone, a test of the user's own, and a value of the wrong kind. */
  lemma SimpleMatchers(m: Matcher, p: Value -> bool, why: Value -> Text, v: Value)
    ensures Meaning(Leaf(p, why), v) <==> p(v)
    ensures Meaning(AllOf([m]), v) <==> Meaning(m, v)
    ensures Meaning(AnyOf([m]), v) <==> Meaning(m, v)
    ensures Meaning(Not(Not(m)), v) <==> Meaning(m, v)
    ensures Meaning(Not(m), v) <==> !Meaning(m, v)
    ensures Meaning(AllOf([]), v) && !Meaning(AnyOf([]), v)
  {
    assert Meaning(AllOf([m]), v) <==> Meaning([m][0], v);
    assert Meaning(AnyOf([m]), v) <==> Meaning([m][0], v);
  }

  /** A container has only matching elements exactly when it contains none that fails to match: the verdicts agree. */
  method EachIsNotContainsNot(m: Matcher, items: seq<Value>) returns (each: bool, none: bool, some: bool, notAll: bool)
    ensures each == none && some == notAll
  {
    each := Matches(Each(m), List(items));
    none := Matches(Not(Contains(Not(m))), List(items));
    some := Matches(Contains(m), List(items));
    notAll := Matches(Not(Each(Not(m))), List(items));
    assert forall i :: 0 <= i < |items| ==> Meaning(Not(m), items[i]) == !Meaning(m, items[i]);
  }

  function Negated(ms: seq<Matcher>): (negated: seq<Matcher>)
    ensures |negated| == |ms|
  {
    seq(|ms|, i requires 0 <= i < |ms| => Not(ms[i]))
  }

  /** The laws of De Morgan, for the verdicts. */
  method DeMorgan(ms: seq<Matcher>, v: Value) returns (notAll: bool, someNot: bool, notAny: bool, allNot: bool)
    ensures notAll == someNot && notAny == allNot
  {
    notAll := Matches(Not(AllOf(ms)), v);
    someNot := Matches(AnyOf(Negated(ms)), v);
    notAny := Matches(Not(AnyOf(ms)), v);
    allNot := Matches(AllOf(Negated(ms)), v);
    forall i | 0 <= i < |ms| ensures Meaning(Negated(ms)[i], v) == !Meaning(ms[i], v) {
      assert Negated(ms)[i] == Not(ms[i]);
    }
  }
}
