/** Lane masks: the bits of a natural number read as a set of string lanes. */
module LaneMasks {

  predicate Bit(mask: nat, lane: nat) {
    if lane == 0 then mask % 2 == 1 else Bit(mask / 2, lane - 1)
  }

  /** The bitwise conjunction of two masks. */
  function And(a: nat, b: nat): nat {
    if a == 0 || b == 0 then 0 else 2 * And(a / 2, b / 2) + (a % 2) * (b % 2)
  }

  /** The lanes from `lane` up to `count` whose bit is set, in ascending order. */
  function LanesFrom(mask: nat, lane: nat, count: nat): (lanes: seq<nat>)
    requires lane <= count
    ensures forall i :: 0 <= i < |lanes| ==> lane <= lanes[i] < count && Bit(mask, lanes[i])
    ensures forall l :: lane <= l < count && Bit(mask, l) ==> l in lanes
    ensures forall i, j :: 0 <= i < j < |lanes| ==> lanes[i] < lanes[j]
    decreases count - lane
  {
    if lane == count then []
    else (if Bit(mask, lane) then [lane] else []) + LanesFrom(mask, lane + 1, count)
  }

  ghost predicate Within(a: nat, b: nat) {
    forall lane: nat :: Bit(a, lane) ==> Bit(b, lane)
  }

  lemma {:induction false} ZeroHasNoBits(lane: nat)
    ensures !Bit(0, lane)
  {
    if lane > 0 {
      ZeroHasNoBits(lane - 1);
    }
  }

  lemma {:induction false} AndBit(a: nat, b: nat, lane: nat)
    ensures Bit(And(a, b), lane) <==> Bit(a, lane) && Bit(b, lane)
  {
    if a == 0 || b == 0 {
      ZeroHasNoBits(lane);
    } else {
      var c := And(a, b);
      assert (a % 2) * (b % 2) == if a % 2 == 1 && b % 2 == 1 then 1 else 0;
      assert c / 2 == And(a / 2, b / 2);
      if lane > 0 {
        AndBit(a / 2, b / 2, lane - 1);
      }
    }
  }

  /** A mask is determined by its bits. */
  lemma {:induction false} SameBitsSameMask(a: nat, b: nat)
    requires Within(a, b) && Within(b, a)
    ensures a == b
  {
    if a == 0 && b == 0 {
    } else {
      assert Bit(a, 0) == Bit(b, 0);
      forall lane: nat
        ensures Bit(a / 2, lane) <==> Bit(b / 2, lane)
      {
        assert Bit(a, lane + 1) == Bit(a / 2, lane) && Bit(b, lane + 1) == Bit(b / 2, lane);
      }
      SameBitsSameMask(a / 2, b / 2);
    }
  }

  lemma AndIsFirstWhenWithin(a: nat, b: nat)
    ensures And(a, b) == a <==> Within(a, b)
    ensures And(a, b) == b <==> Within(b, a)
  {
    forall lane: nat
      ensures Bit(And(a, b), lane) <==> Bit(a, lane) && Bit(b, lane)
    {
      AndBit(a, b, lane);
    }
    if Within(a, b) {
      SameBitsSameMask(And(a, b), a);
    }
    if Within(b, a) {
      SameBitsSameMask(And(a, b), b);
    }
  }

  lemma {:induction false} SomeBitIsSet(a: nat)
    requires a != 0
    ensures exists lane: nat :: Bit(a, lane)
  {
    if a % 2 == 1 {
      assert Bit(a, 0);
    } else {
      SomeBitIsSet(a / 2);
      var lane: nat :| Bit(a / 2, lane);
      assert Bit(a, lane + 1);
    }
  }

  lemma AndIsZeroWhenDisjoint(a: nat, b: nat)
    ensures And(a, b) == 0 <==> forall lane: nat :: !(Bit(a, lane) && Bit(b, lane))
  {
    if And(a, b) == 0 {
      forall lane: nat
        ensures !(Bit(a, lane) && Bit(b, lane))
      {
        AndBit(a, b, lane);
        ZeroHasNoBits(lane);
      }
    } else {
      SomeBitIsSet(And(a, b));
      var lane: nat :| Bit(And(a, b), lane);
      AndBit(a, b, lane);
    }
  }

  /** The mask with the bit of one lane added, as `mask |= 1 << lane` leaves it. */
  function SetBit(mask: nat, lane: nat): (m: nat) {
    if lane == 0 then (if mask % 2 == 1 then mask else mask + 1)
    else 2 * SetBit(mask / 2, lane - 1) + mask % 2
  }

  lemma {:induction false} SetBitBits(mask: nat, lane: nat, l: nat)
    ensures Bit(SetBit(mask, lane), l) <==> Bit(mask, l) || l == lane
  {
    if lane > 0 && l > 0 {
      assert SetBit(mask, lane) / 2 == SetBit(mask / 2, lane - 1);
      SetBitBits(mask / 2, lane - 1, l - 1);
    }
  }

  function PopCount(mask: nat): nat {
    if mask == 0 then 0 else mask % 2 + PopCount(mask / 2)
  }

  function Pow2(n: nat): (p: nat)
    ensures p > 0
  {
    if n == 0 then 1 else 2 * Pow2(n - 1)
  }

  lemma {:induction false} LanesShift(mask: nat, lane: nat, count: nat)
    requires lane <= count
    ensures |LanesFrom(mask, lane + 1, count + 1)| == |LanesFrom(mask / 2, lane, count)|
    decreases count - lane
  {
    if lane < count {
      LanesShift(mask, lane + 1, count);
    }
  }

  lemma {:induction false} HighBitsAreClear(mask: nat, count: nat, lane: nat)
    requires mask < Pow2(count) && lane >= count
    ensures !Bit(mask, lane)
  {
    if count == 0 {
      ZeroHasNoBits(lane);
    } else {
      HighBitsAreClear(mask / 2, count - 1, lane - 1);
    }
  }

  lemma {:induction false} LowBitsAreSmall(mask: nat, count: nat)
    requires forall lane: nat :: Bit(mask, lane) ==> lane < count
    ensures mask < Pow2(count)
  {
    if count == 0 {
      if mask != 0 {
        SomeBitIsSet(mask);
      }
    } else {
      forall lane: nat | Bit(mask / 2, lane)
        ensures lane < count - 1
      {
        assert Bit(mask, lane + 1);
      }
      LowBitsAreSmall(mask / 2, count - 1);
    }
  }

  /** The mask of some lanes. */
  function MaskOf(lanes: seq<nat>): nat {
    if lanes == [] then 0 else SetBit(MaskOf(lanes[..|lanes| - 1]), lanes[|lanes| - 1])
  }

  lemma {:induction false} MaskOfBits(lanes: seq<nat>, lane: nat)
    ensures Bit(MaskOf(lanes), lane) <==> lane in lanes
    decreases |lanes|
  {
    if lanes == [] {
      ZeroHasNoBits(lane);
    } else {
      var n := |lanes| - 1;
      assert lanes == lanes[..n] + [lanes[n]];
      MaskOfBits(lanes[..n], lane);
      SetBitBits(MaskOf(lanes[..n]), lanes[n], lane);
    }
  }

  lemma FirstIsIn(s: seq<nat>)
    ensures s == [] || s[0] in s
  {
  }

  /** Ascending sequences with the same elements are the same. */
  lemma {:induction false} AscendingIsUnique(a: seq<nat>, b: seq<nat>)
    requires forall i, j :: 0 <= i < j < |a| ==> a[i] < a[j]
    requires forall i, j :: 0 <= i < j < |b| ==> b[i] < b[j]
    requires forall x :: x in a <==> x in b
    ensures a == b
    decreases |a|
  {
    if a == [] {
      FirstIsIn(b);
    } else {
      assert a[0] in b && b != [] && b[0] in a;
      assert a[0] == b[0];
      forall x
        ensures x in a[1..] <==> x in b[1..]
      {
        assert x in a <==> x == a[0] || x in a[1..];
        assert x in b <==> x == b[0] || x in b[1..];
        assert a[0] !in a[1..] && b[0] !in b[1..];
      }
      AscendingIsUnique(a[1..], b[1..]);
      assert a == [a[0]] + a[1..] && b == [b[0]] + b[1..];
    }
  }

  /** Counting set bits counts lanes. */
  lemma {:induction false} PopCountCountsLanes(mask: nat, count: nat)
    requires mask < Pow2(count)
    ensures PopCount(mask) == |LanesFrom(mask, 0, count)|
  {
    if count > 0 {
      PopCountCountsLanes(mask / 2, count - 1);
      LanesShift(mask, 0, count - 1);
      assert PopCount(mask) == mask % 2 + PopCount(mask / 2);
    }
  }
}
