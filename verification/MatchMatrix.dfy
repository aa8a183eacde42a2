/**
 The connectivity matrix of elements and matchers, kept in one flat vector, and
 how it is filled from a container.
 */
module MatchMatrix {
  import opened Bits
  import opened Matchers

  /** The flat index is in bounds, and no two coordinates share one. */
  lemma SpaceIndexInjective(n: nat, m: nat, i: nat, j: nat, k: nat, l: nat)
    requires i < n && j < m && k < n && l < m
    ensures i * m + j < n * m
    ensures i * m + j == k * m + l ==> i == k && j == l
  {
    MulGap(i, n, m);
    if i < k {
      MulGap(i, k, m);
    } else if k < i {
      MulGap(k, i, m);
    }
  }

  class MatchMatrix {
    const numElements: nat
    const numMatchers: nat
    const matched: array<nat>

    ghost predicate Valid() {
      matched.Length == numElements * numMatchers
    }

    function SpaceIndex(ilhs: nat, irhs: nat): nat {
      ilhs * numMatchers + irhs
    }

    /** The matrix as a relation. */
    ghost predicate Edge(ilhs: nat, irhs: nat)
      requires Valid() && ilhs < numElements && irhs < numMatchers
      reads matched
    {
      SpaceIndexInjective(numElements, numMatchers, ilhs, irhs, ilhs, irhs);
      matched[SpaceIndex(ilhs, irhs)] == 1
    }

    constructor (numElements: nat, numMatchers: nat)
      ensures Valid() && fresh(matched)
      ensures this.numElements == numElements && this.numMatchers == numMatchers
      ensures forall i: nat, j: nat :: i < numElements && j < numMatchers ==> !Edge(i, j)
    {
      this.numElements := numElements;
      this.numMatchers := numMatchers;
      matched := new nat[numElements * numMatchers](_ => 0);
      new;
      forall i: nat, j: nat | i < numElements && j < numMatchers ensures !Edge(i, j) {
        SpaceIndexInjective(numElements, numMatchers, i, j, i, j);
      }
    }

    method HasEdge(ilhs: nat, irhs: nat) returns (b: bool)
      requires Valid() && ilhs < numElements && irhs < numMatchers
      ensures b <==> Edge(ilhs, irhs)
    {
      SpaceIndexInjective(numElements, numMatchers, ilhs, irhs, ilhs, irhs);
      b := matched[SpaceIndex(ilhs, irhs)] == 1;
    }

    method SetEdge(ilhs: nat, irhs: nat, b: bool)
      requires Valid() && ilhs < numElements && irhs < numMatchers
      modifies matched
      ensures forall i: nat, j: nat :: i < numElements && j < numMatchers ==>
        Edge(i, j) == if i == ilhs && j == irhs then b else old(Edge(i, j))
    {
      SpaceIndexInjective(numElements, numMatchers, ilhs, irhs, ilhs, irhs);
      matched[SpaceIndex(ilhs, irhs)] := if b then 1 else 0;
      forall i: nat, j: nat | i < numElements && j < numMatchers
        ensures Edge(i, j) == if i == ilhs && j == irhs then b else old(Edge(i, j))
      {
        SpaceIndexInjective(numElements, numMatchers, ilhs, irhs, i, j);
      }
    }
  }

  /** The verdicts of every matcher on one element. */
  ghost function Row(element: Value, ms: seq<Matcher>): (row: seq<bool>)
    ensures |row| == |ms|
  {
    seq(|ms|, j requires 0 <= j < |ms| => Meaning(ms[j], element))
  }

  /** The verdicts on all elements, row after row. */
  ghost function Rows(elements: seq<Value>, ms: seq<Matcher>): seq<bool> {
    if elements == [] then [] else Rows(elements[..|elements| - 1], ms) + Row(elements[|elements| - 1], ms)
  }

  lemma {:induction false} RowsLength(elements: seq<Value>, ms: seq<Matcher>)
    ensures |Rows(elements, ms)| == |elements| * |ms|
  {
    if elements != [] {
      var n := |elements| - 1;
      RowsLength(elements[..n], ms);
      assert (n + 1) * |ms| == n * |ms| + |ms|;
    }
  }

  lemma {:induction false} RowsAt(elements: seq<Value>, ms: seq<Matcher>, i: nat, j: nat)
    requires i < |elements| && j < |ms|
    ensures i * |ms| + j < |Rows(elements, ms)| == |elements| * |ms|
    ensures Rows(elements, ms)[i * |ms| + j] == Meaning(ms[j], elements[i])
  {
    var n := |elements| - 1;
    var front, row := Rows(elements[..n], ms), Row(elements[n], ms);
    RowsLength(elements, ms);
    RowsLength(elements[..n], ms);
    assert Rows(elements, ms) == front + row;
    if i < n {
      RowsAt(elements[..n], ms, i, j);
      assert (front + row)[i * |ms| + j] == front[i * |ms| + j];
    } else {
      assert (front + row)[n * |ms| + j] == row[j];
    }
  }

  method QueueResults(ms: seq<Matcher>, elements: seq<Value>) returns (didMatch: seq<bool>)
    ensures didMatch == Rows(elements, ms)
  {
    didMatch := [];
    for numElements := 0 to |elements|
      invariant didMatch == Rows(elements[..numElements], ms)
    {
      var element := elements[numElements];
      ghost var before := didMatch;
      for irhs := 0 to |ms|
        invariant didMatch == before + Row(element, ms)[..irhs]
      {
        var matches := Matches(ms[irhs], element);
        didMatch := didMatch + [matches];
      }
      assert elements[..numElements + 1][..numElements] == elements[..numElements];
    }
    assert elements[..|elements|] == elements;
  }

  /** Every matcher is tried on every element; the verdicts are queued, then replayed into a matrix. */
  method AnalyzeElements(ms: seq<Matcher>, elements: seq<Value>) returns (matrix: MatchMatrix)
    ensures matrix.Valid() && fresh(matrix) && fresh(matrix.matched)
    ensures matrix.numElements == |elements| && matrix.numMatchers == |ms|
    ensures forall i: nat, j: nat :: i < |elements| && j < |ms| ==>
      (matrix.Edge(i, j) <==> Meaning(ms[j], elements[i]))
  {
    var didMatch := QueueResults(ms, elements);
    matrix := new MatchMatrix(|elements|, |ms|);
    var next := 0;
    for ilhs := 0 to |elements|
      invariant matrix.Valid() && next == ilhs * |ms|
      invariant forall i: nat, j: nat :: i < ilhs && j < |ms| ==>
        (matrix.Edge(i, j) <==> Meaning(ms[j], elements[i]))
    {
      for irhs := 0 to |ms|
        invariant matrix.Valid() && next == ilhs * |ms| + irhs
        invariant forall i: nat, j: nat :: (i < ilhs && j < |ms|) || (i == ilhs && j < irhs) ==>
          (matrix.Edge(i, j) <==> Meaning(ms[j], elements[i]))
      {
        RowsAt(elements, ms, ilhs, irhs);
        matrix.SetEdge(ilhs, irhs, didMatch[next]);
        next := next + 1;
      }
    }
  }
}
