/** Which heights a block locator visits, with the code's 32-bit arithmetic. */
module Locator {
  import opened Basics

  const MAX_BLOCK_LOCATORS_PER_MSG: nat := 500

  // The heights visited from a height, with the given decrement and locator length: subtract, stop at zero,
  // double the decrement once more than ten hashes are in.
  function Visit(height: uint32, decrement: uint32, len: nat): seq<uint32>
    decreases MAX_BLOCK_LOCATORS_PER_MSG - len
  {
    if height == 0 || len >= MAX_BLOCK_LOCATORS_PER_MSG then []
    else [height] + Visit(NextHeight(height, decrement), NextDecrement(decrement, len), len + 1)
  }

  function NextHeight(height: uint32, decrement: uint32): uint32 {
    if decrement > height then 0 else height - decrement
  }

  function NextDecrement(decrement: uint32, len: nat): uint32 {
    if len + 1 > 10 then Wrap32(decrement * 2) else decrement
  }

  // The heights of the locator of a tip, after the tip's own hash.
  function LocatorHeights(tip: uint32): seq<uint32> { Visit(tip, 1, 1) }

  function Pow2(n: nat): nat {
    if n == 0 then 1 else 2 * Pow2(n - 1)
  }

  // How far below the tip the k-th visited height lies: 0, 1, ..., 9, then 8 + 2, 8 + 4, 8 + 8, ...
  function Offset(k: nat): nat
    requires k >= 1
  {
    if k <= 10 then k - 1 else 8 + Pow2(k - 10)
  }

  // The decrement in force at the k-th visit.
  function Decrement(k: nat): nat
    requires k >= 1
  {
    if k <= 10 then 1 else Pow2(k - 10)
  }

  lemma {:induction false} Pow2Monotone(a: nat, b: nat)
    requires a <= b
    ensures Pow2(a) <= Pow2(b)
    decreases b
  {
    if a < b {
      Pow2Monotone(a, b - 1);
    }
  }

  lemma DoubleFirst(x: nat, y: nat)
    ensures (2 * x) * y == 2 * (x * y)
  {}

  lemma {:induction false} Pow2Add(a: nat, b: nat)
    ensures Pow2(a + b) == Pow2(a) * Pow2(b)
  {
    if a > 0 {
      Pow2Add(a - 1, b);
      DoubleFirst(Pow2(a - 1), Pow2(b));
    }
  }

  lemma Pow2Values()
    ensures Pow2(30) == 0x4000_0000 && Pow2(31) == 0x8000_0000 && Pow2(32) == TWO_TO_THE_32
  {
    assert Pow2(2) == 4 && Pow2(4) == 16;
    Pow2Add(4, 4);
    Pow2Add(8, 8);
    Pow2Add(16, 8);
    Pow2Add(24, 4);
    Pow2Add(28, 2);
    assert Pow2(31) == 2 * Pow2(30) && Pow2(32) == 2 * Pow2(31);
  }

  // Doubling overflows only when the decrement already exceeds the height, so the next height is zero.
  lemma WrapOnlyAtZero(tip: uint32, k: nat)
    requires k >= 1 && Offset(k) < tip
    ensures k <= 41 && Decrement(k) < TWO_TO_THE_32
    ensures Decrement(k) * 2 >= TWO_TO_THE_32 ==> NextHeight(tip - Offset(k), Decrement(k)) == 0
  {
    Pow2Values();
    if k > 41 {
      Pow2Monotone(32, k - 10);
    } else if k > 10 {
      Pow2Monotone(k - 10, 31);
      if k < 41 {
        Pow2Monotone(k - 10, 30);
      }
    }
  }

  // The heights visited from the k-th visit on are tip - Offset(k), tip - Offset(k + 1), ...
  ghost predicate FollowsFrom(tip: uint32, v: seq<uint32>, k: nat)
    requires k >= 1
  {
    forall j :: 0 <= j < |v| ==> v[j] == tip - Offset(k + j)
  }

  // That goes on while these heights are positive.
  lemma {:induction false} VisitFrom(tip: uint32, k: nat)
    requires k >= 1 && Offset(k) < tip && Decrement(k) < TWO_TO_THE_32
    ensures var v := Visit(tip - Offset(k), Decrement(k), k);
            |v| >= 1 && k + |v| <= 42 && FollowsFrom(tip, v, k) && Offset(k + |v|) >= tip
    decreases 42 - k
  {
    VisitUnfolds(tip, k);
    if Offset(k + 1) < tip {
      VisitFrom(tip, k + 1);
      VisitExtends(tip, k, Visit(tip - Offset(k + 1), Decrement(k + 1), k + 1));
    }
  }

  lemma VisitUnfolds(tip: uint32, k: nat)
    requires k >= 1 && Offset(k) < tip && Decrement(k) < TWO_TO_THE_32
    ensures k <= 41
    ensures Offset(k + 1) < tip ==>
              && Decrement(k + 1) < TWO_TO_THE_32
              && Visit(tip - Offset(k), Decrement(k), k)
                 == [tip - Offset(k)] + Visit(tip - Offset(k + 1), Decrement(k + 1), k + 1)
    ensures Offset(k + 1) >= tip ==> Visit(tip - Offset(k), Decrement(k), k) == [tip - Offset(k)]
  {
    VisitStep(tip, k);
    var height, dec := tip - Offset(k), Decrement(k);
    var rest := Visit(NextHeight(height, dec), NextDecrement(dec, k), k + 1);
    assert Visit(height, dec, k) == [height] + rest;
    assert Offset(k + 1) >= tip ==> rest == [];
  }

  lemma VisitExtends(tip: uint32, k: nat, rest: seq<uint32>)
    requires k >= 1 && Offset(k) < tip && FollowsFrom(tip, rest, k + 1)
    ensures FollowsFrom(tip, [tip - Offset(k)] + rest, k)
  {
    var v: seq<uint32> := [tip - Offset(k)] + rest;
    forall j | 0 <= j < |v|
      ensures v[j] == tip - Offset(k + j)
    {
      assert j > 0 ==> v[j] == rest[j - 1] == tip - Offset(k + 1 + (j - 1));
    }
  }

  // One round of the loop, from the k-th visit to the next.
  lemma VisitStep(tip: uint32, k: nat)
    requires k >= 1 && Offset(k) < tip && Decrement(k) < TWO_TO_THE_32
    ensures k <= 41
    ensures NextHeight(tip - Offset(k), Decrement(k)) == if Offset(k + 1) < tip then tip - Offset(k + 1) else 0
    ensures Offset(k + 1) < tip ==> NextDecrement(Decrement(k), k) == Decrement(k + 1) < TWO_TO_THE_32
  {
    WrapOnlyAtZero(tip, k);
    assert Offset(k + 1) == Offset(k) + Decrement(k);
    if Offset(k + 1) < tip {
      WrapOnlyAtZero(tip, k + 1);
    }
  }

  // The k-th visited height is tip - Offset(k) if that is positive; else there is no k-th.
  predicate FollowsOffset(tip: uint32, v: seq<uint32>, k: nat)
    requires k >= 1
  {
    if k <= |v| then v[k - 1] == tip - Offset(k) > 0 else Offset(k) >= tip
  }

  /** The shape of a locator: after the tip come exactly the positive values among tip - Offset(k), k = 1, 2, ...,
      and with the tip they are never more than 42 hashes. */
  lemma LocatorShape(tip: uint32)
    ensures |LocatorHeights(tip)| <= 41
    ensures forall k :: k >= 1 ==> FollowsOffset(tip, LocatorHeights(tip), k)
  {
    var v := LocatorHeights(tip);
    if tip > 0 {
      VisitFrom(tip, 1);
    }
    forall k | k >= 1
      ensures FollowsOffset(tip, v, k)
    {
      if k <= |v| {
        assert v[k - 1] == tip - Offset(1 + (k - 1));
        VisitPositive(tip, 1, 1);
      } else {
        OffsetMonotone(|v| + 1, k);
      }
    }
  }

  lemma {:induction false} VisitPositive(height: uint32, decrement: uint32, len: nat)
    ensures forall j :: 0 <= j < |Visit(height, decrement, len)| ==> Visit(height, decrement, len)[j] > 0
    decreases MAX_BLOCK_LOCATORS_PER_MSG - len
  {
    if height != 0 && len < MAX_BLOCK_LOCATORS_PER_MSG {
      VisitPositive(NextHeight(height, decrement), NextDecrement(decrement, len), len + 1);
    }
  }

  lemma OffsetMonotone(a: nat, b: nat)
    requires 1 <= a <= b
    ensures Offset(a) <= Offset(b)
  {
    if a > 10 {
      Pow2Monotone(a - 10, b - 10);
    } else if b > 10 {
      Pow2Monotone(1, b - 10);
    }
  }

  // Visited heights lie between 1 and the tip, and no two are equal.
  lemma VisitedInRange(tip: uint32)
    ensures forall i :: 0 <= i < |LocatorHeights(tip)| ==> 1 <= LocatorHeights(tip)[i] <= tip
  {
    LocatorShape(tip);
    var v := LocatorHeights(tip);
    forall i | 0 <= i < |v|
      ensures 1 <= v[i] <= tip
    {
      assert FollowsOffset(tip, v, i + 1);
    }
  }
}
