/**
 The power-of-two ring buffer: size rounding, masked indices, and the queue it
 represents.
 */
module SafeArray {
  import opened Bits

  /** The sizes the constructor can choose. */
  ghost predicate RingSize(size: nat) {
    IsPow2(size) && 8 <= size <= 0x8000_0000
  }

  /** `size` is the least power of two not below 8 and the request; 8 when that needs more than 32 bits. */
  ghost predicate RoundedTo(requested: nat, size: nat) {
    && RingSize(size)
    && (requested <= 0x8000_0000 ==>
          && Max(requested, 8) <= size < 2 * Max(requested, 8)
          && forall p: nat :: IsPow2(p) && Max(requested, 8) <= p ==> size <= p)
    && (requested > 0x8000_0000 ==> size == 8)
  }

  /** The masked increment of an index, in 32-bit arithmetic. */
  function Next(i: nat, inv: nat): nat {
    And((i + 1) % UINT_RANGE, inv)
  }

  lemma NextWraps(i: nat, size: nat)
    requires RingSize(size) && i < size
    ensures Next(i, size - 1) == (i + 1) % size
    ensures Next(i, size - 1) == if i + 1 == size then 0 else i + 1
  {
    var k: nat :| size == Pow2(k);
    AndMask(i + 1, k);
    if i + 1 == size {
      DivModUnique(i + 1, size, 1, 0);
    } else {
      DivModUnique(i + 1, size, 0, i + 1);
    }
  }

  /** The items between the two indices, oldest first. */
  function Items<T>(slots: seq<T>, push: nat, pop: nat): (items: seq<T>)
    requires push < |slots| && pop < |slots|
    ensures |items| == (if pop <= push then push - pop else |slots| + push - pop)
    ensures |items| < |slots|
  {
    if pop <= push then slots[pop..push] else slots[pop..] + slots[..push]
  }

  /** Storing at the push index and advancing it appends, unless the ring was full: then the queue appears empty. */
  lemma PushAppends<T>(slots: seq<T>, push: nat, pop: nat, t: T)
    requires RingSize(|slots|) && push < |slots| && pop < |slots|
    ensures Next(push, |slots| - 1) < |slots|
    ensures Next(push, |slots| - 1) == pop <==> |Items(slots, push, pop)| == |slots| - 1
    ensures Items(slots[push := t], Next(push, |slots| - 1), pop)
         == if Next(push, |slots| - 1) == pop then [] else Items(slots, push, pop) + [t]
  {
    NextWraps(push, |slots|);
    assert slots[push := t][..push] == slots[..push];
  }

  /** Advancing the pop index removes the oldest item of a non-empty ring. */
  lemma PopRemoves<T>(slots: seq<T>, push: nat, pop: nat)
    requires RingSize(|slots|) && push < |slots| && pop < |slots|
    ensures Next(pop, |slots| - 1) < |slots|
    ensures push == pop <==> Items(slots, push, pop) == []
    ensures push != pop ==>
      Items(slots, push, pop) == [slots[pop]] + Items(slots, push, Next(pop, |slots| - 1))
  {
    NextWraps(pop, |slots|);
  }

  /** Writing a slot outside the queue does not change the queue. */
  lemma WriteOutside<T>(slots: seq<T>, push: nat, pop: nat, t: T)
    requires push < |slots| && pop < |slots|
    ensures Items(slots[push := t], push, pop) == Items(slots, push, pop)
  {
  }

  /** The number of bits of `n`. */
  function Length(n: nat): nat {
    if n == 0 then 0 else 1 + Length(n / 2)
  }

  lemma {:induction false} LengthBounds(n: nat)
    ensures n < Pow2(Length(n))
    ensures n > 0 ==> Pow2(Length(n) - 1) <= n
  {
    if n > 1 {
      LengthBounds(n / 2);
    }
  }

  /** No power of two lies strictly between two neighbouring ones. */
  lemma NextPow2(p: nat, k: nat)
    requires IsPow2(p) && Pow2(k) < p
    ensures Pow2(k + 1) <= p
  {
    var j: nat :| p == Pow2(j);
    if j <= k {
      Pow2Monotonic(j, k);
    } else {
      Pow2Monotonic(k + 1, j);
    }
  }

  lemma EightIsPow2()
    ensures Pow2(3) == 8 && IsPow2(8)
  {
    assert Pow2(3) == 8;
  }

  lemma TopIsPow2()
    ensures Pow2(31) == 0x8000_0000 && Pow2(32) == UINT_RANGE && IsPow2(0x8000_0000)
  {
    assert Pow2(8) == 256 && Pow2(16) == Pow2(8) * 256 && Pow2(24) == Pow2(16) * 256;
    assert Pow2(31) == Pow2(24) * 128;
  }

  lemma Unwrapped(n: nat)
    requires n < UINT_RANGE
    ensures n % UINT_RANGE == n
  {
  }

  lemma PowerOfTwoTest(n: nat)
    requires n < UINT_RANGE
    ensures And(n, (n - 1) % UINT_RANGE) == 0 <==> n == 0 || IsPow2(n)
  {
    if n > 0 {
      Unwrapped(n - 1);
      AndPredecessor(n);
    }
  }

  /** A power of two, or zero, is kept unless it is below 8. */
  lemma KeptSize(n: nat)
    requires n < UINT_RANGE && (n == 0 || IsPow2(n))
    ensures RoundedTo(n, Max(n, 8))
  {
    EightIsPow2();
    TopIsPow2();
    if n > 0x8000_0000 {
      NextPow2(n, 31);
    }
  }

  /** The power of two above `n` is the least one that is not below `n`. */
  lemma LeastAbove(n: nat, k: nat)
    requires k > 0 && Pow2(k - 1) < n
    ensures forall p: nat :: IsPow2(p) && n <= p ==> Pow2(k) <= p
  {
    forall p: nat | IsPow2(p) && n <= p ensures Pow2(k) <= p {
      NextPow2(p, k - 1);
    }
  }

  /** Which power that is, in 32 bits. */
  lemma TopBit(n: nat, k: nat)
    requires 0 < n < UINT_RANGE && k > 0 && Pow2(k - 1) < n < Pow2(k)
    ensures n <= 0x8000_0000 ==> Pow2(k) <= 0x8000_0000
    ensures n > 0x8000_0000 ==> Pow2(k) == UINT_RANGE
  {
    TopIsPow2();
    if k <= 31 {
      Pow2Monotonic(k, 31);
    } else {
      Pow2Monotonic(31, k - 1);
    }
  }

  /** Any other size moves up to the next power of two, or to 8 when that needs more than 32 bits. */
  lemma MovedSize(n: nat, k: nat)
    requires 0 < n < UINT_RANGE && !IsPow2(n) && k > 0
    requires Pow2(k - 1) <= n < Pow2(k)
    ensures RoundedTo(n, Max(Pow2(k) % UINT_RANGE, 8))
  {
    assert IsPow2(Pow2(k)) && IsPow2(Pow2(k - 1));
    TopBit(n, k);
    LeastAbove(n, k);
    EightIsPow2();
    if n <= 0x8000_0000 {
      Unwrapped(Pow2(k));
      assert Pow2(k) == 2 * Pow2(k - 1);
    }
  }

  class SafeArray<T(0)> {
    const arraySize: nat
    const arraySizeInv: nat
    const data: array<T>
    const zero: T
    var pushIdx: nat
    var popIdx: nat

    ghost predicate Valid()
      reads this
    {
      && RingSize(arraySize)
      && arraySizeInv == arraySize - 1
      && data.Length == arraySize
      && pushIdx < arraySize
      && popIdx < arraySize
    }

    /** The queue the ring stands for. */
    ghost function Contents(): seq<T>
      reads this, data
      requires Valid()
    {
      Items(data[..], pushIdx, popIdx)
    }

    /** The shift loop. */
    static method BitLength(n: nat) returns (k: nat)
      ensures n < Pow2(k)
      ensures n > 0 ==> k > 0 && Pow2(k - 1) <= n
    {
      var nSize := n;
      k := 0;
      while nSize != 0
        invariant k + Length(nSize) == Length(n)
        decreases nSize
      {
        nSize := nSize / 2;
        k := k + 1;
      }
      LengthBounds(n);
    }

    /** Rounds a requested size up. `1 << k` is taken in 32 bits. */
    static method RoundUp(requested: nat) returns (size: nat)
      requires requested < UINT_RANGE
      ensures RoundedTo(requested, size)
    {
      var nSize := requested;
      var k := And(nSize, (nSize - 1) % UINT_RANGE);
      PowerOfTwoTest(requested);
      if k == 0 {
        KeptSize(requested);
      } else {
        k := BitLength(nSize);
        MovedSize(requested, k);
        nSize := Pow2(k) % UINT_RANGE;
      }
      size := Max(nSize, 8);
    }

    constructor (nSize: nat, zero: T)
      requires nSize < UINT_RANGE
      ensures Valid() && fresh(data)
      ensures Contents() == []
      ensures RoundedTo(nSize, arraySize)
      ensures this.zero == zero
    {
      var size := SafeArray<T>.RoundUp(nSize);
      arraySize := size;
      arraySizeInv := size - 1;
      data := new T[size];
      this.zero := zero;
      pushIdx := 0;
      popIdx := 0;
    }

    method HasItem() returns (b: bool)
      requires Valid()
      ensures b <==> Contents() != []
    {
      b := pushIdx != popIdx;
    }

    method HasSpace() returns (b: bool)
      requires Valid()
      ensures b <==> |Contents()| < arraySize - 1
    {
      PushAppends(data[..], pushIdx, popIdx, zero);
      b := Next(pushIdx, arraySizeInv) != popIdx;
    }

    /** Without a space check, storing into a full ring makes the queue look empty. */
    method AddItem(t: T)
      requires Valid()
      modifies this`pushIdx, data
      ensures Valid()
      ensures Contents() == if |old(Contents())| < arraySize - 1 then old(Contents()) + [t] else []
    {
      PushAppends(data[..], pushIdx, popIdx, t);
      ghost var was := data[..];
      data[pushIdx] := t;
      assert data[..] == was[pushIdx := t];
      pushIdx := Next(pushIdx, arraySizeInv);
    }

    method RemoveTopItem()
      requires Valid()
      modifies this`popIdx
      ensures Valid()
      ensures old(Contents()) != [] ==> Contents() == old(Contents())[1..]
      ensures old(Contents()) == [] ==> |Contents()| == arraySize - 1
    {
      PopRemoves(data[..], pushIdx, popIdx);
      NextWraps(popIdx, arraySize);
      popIdx := Next(popIdx, arraySizeInv);
    }

    method GetItem() returns (t: T)
      requires Valid()
      modifies this`popIdx
      ensures Valid()
      ensures old(Contents()) == [] ==> t == zero && Contents() == []
      ensures old(Contents()) != [] ==> [t] + Contents() == old(Contents())
    {
      var some := HasItem();
      if !some {
        return zero;
      }
      PopRemoves(data[..], pushIdx, popIdx);
      var idx := popIdx;
      popIdx := Next(popIdx, arraySizeInv);
      return data[idx];
    }

    method GetItemNoRemove() returns (t: T)
      requires Valid()
      ensures Contents() != [] ==> t == Contents()[0]
    {
      t := data[popIdx];
    }

    /** The unsigned difference is read back as a signed number, and added back to the size when negative. */
    method Count() returns (n: nat)
      requires Valid()
      ensures n == |Contents()|
    {
      var difference := (pushIdx - popIdx) % UINT_RANGE;
      var d := if difference >= 0x8000_0000 then difference - UINT_RANGE else difference;
      n := if d < 0 then (arraySize + d) % UINT_RANGE else d;
    }
  }
}
