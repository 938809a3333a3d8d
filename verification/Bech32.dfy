// The bech32 checksum: a cyclic code over 5-bit symbols whose shift register
// is linear over exclusive or. Facts about bits are proved one at a time; the
// laws of the code then follow from them without looking at bits again.
module Polymod {
  import opened Sequences


  // What is fed back for each of the five bits that fall off the top.
  const GEN: seq<bv32> := [0x3B6A57B2, 0x26508E6D, 0x1EA119FA, 0x3D4233DD, 0x2A1462B3]

  function Xor(a: bv32, b: bv32): bv32 {
    a ^ b
  }

  /** The bits above the low 25. */
  function Top(chk: bv32): bv32 {
    chk >> 25
  }

  /** The low 25 bits, moved up by one symbol. */
  function Moved(chk: bv32): bv32 {
    (chk & 0x1FFFFFF) << 5
  }

  function Shifted(chk: bv32, v: bv32): bv32 {
    Xor(Moved(chk), v)
  }

  /** (top >> i) & 1 */
  predicate TopBit(top: bv32, i: nat)
    requires i < 5
  {
    if i == 0 then top & 1 != 0
    else if i == 1 then top & 2 != 0
    else if i == 2 then top & 4 != 0
    else if i == 3 then top & 8 != 0
    else top & 16 != 0
  }

  function Tap(top: bv32, i: nat): bv32
    requires i < 5
  {
    if TopBit(top, i) then GEN[i] else 0
  }

  function FedBack(chk: bv32, top: bv32, n: nat): bv32
    requires n <= 5
  {
    if n == 0 then chk else Xor(FedBack(chk, top, n - 1), Tap(top, n - 1))
  }

  function Step(chk: bv32, v: bv32): bv32 {
    FedBack(Shifted(chk, v), Top(chk), 5)
  }

  /** The register after `values`, started from `chk`. */
  function Poly(chk: bv32, values: seq<bv32>): bv32
    decreases |values|
  {
    if values == [] then chk else Poly(Step(chk, values[0]), values[1..])
  }

  method ComputePolymod(values: seq<bv32>) returns (chk: bv32)
    ensures chk == Poly(1, values)
  {
    hide *;
    chk := 1;
    PolyAll(values);
    for k := 0 to |values|
      invariant Poly(chk, values[k..]) == Poly(1, values)
    {
      var v := values[k];
      ghost var before := chk;
      var top := Top(chk);
      chk := Shifted(chk, v);
      FedBackNone(chk, top);
      for i := 0 to 5
        invariant chk == FedBack(Shifted(before, v), top, i)
      {
        FedBackMore(Shifted(before, v), top, i);
        chk := Xor(chk, Tap(top, i));
      }
      PolyStep(before, values, k);
    }
    PolyNone(chk);
    assert values[|values|..] == [];
  }

  lemma PolyAll(values: seq<bv32>)
    ensures Poly(1, values[0..]) == Poly(1, values)
  {
    assert values[0..] == values;
  }

  lemma PolyStep(chk: bv32, values: seq<bv32>, k: nat)
    requires k < |values|
    ensures Poly(chk, values[k..]) == Poly(FedBack(Shifted(chk, values[k]), Top(chk), 5), values[k + 1..])
  {
    assert values[k..][1..] == values[k + 1..];
  }

  lemma FedBackNone(chk: bv32, top: bv32)
    ensures FedBack(chk, top, 0) == chk
  {
  }

  lemma FedBackMore(chk: bv32, top: bv32, i: nat)
    requires i < 5
    ensures FedBack(chk, top, i + 1) == Xor(FedBack(chk, top, i), Tap(top, i))
  {
  }

  // --- exclusive or ------------------------------------------------------------

  lemma XorAssociative(a: bv32, b: bv32, c: bv32)
    ensures Xor(Xor(a, b), c) == Xor(a, Xor(b, c))
  {
  }

  lemma XorCommutative(a: bv32, b: bv32)
    ensures Xor(a, b) == Xor(b, a)
  {
  }

  lemma XorShuffle(a: bv32, b: bv32, c: bv32, d: bv32)
    ensures Xor(Xor(a, b), Xor(c, d)) == Xor(Xor(a, c), Xor(b, d))
  {
    hide *;
    XorAssociative(a, b, Xor(c, d));
    XorAssociative(b, c, d);
    XorCommutative(b, c);
    XorAssociative(c, b, d);
    XorAssociative(a, c, Xor(b, d));
  }

  lemma XorZero(a: bv32)
    ensures Xor(a, 0) == a && Xor(0, a) == a && Xor(a, a) == 0
  {
  }

  lemma XorTwice(a: bv32, c: bv32)
    ensures Xor(a, Xor(a, c)) == c
  {
  }

  lemma XorEqual(a: bv32, b: bv32)
    ensures Xor(a, b) == 0 <==> a == b
  {
  }

  // --- the register is linear -----------------------------------------------------

  lemma ShiftedLinear(a: bv32, b: bv32, v: bv32, w: bv32)
    ensures Shifted(Xor(a, b), Xor(v, w)) == Xor(Shifted(a, v), Shifted(b, w))
  {
    hide Xor, Moved;
    MovedLinear(a, b);
    XorShuffle(Moved(a), Moved(b), v, w);
  }

  lemma MovedLinear(a: bv32, b: bv32)
    ensures Moved(Xor(a, b)) == Xor(Moved(a), Moved(b))
  {
  }

  lemma TopLinear(a: bv32, b: bv32)
    ensures Top(Xor(a, b)) == Xor(Top(a), Top(b))
  {
  }

  lemma TopBitLinear(s: bv32, t: bv32, i: nat)
    requires i < 5
    ensures TopBit(Xor(s, t), i) <==> TopBit(s, i) != TopBit(t, i)
  {
  }

  lemma TapIs(top: bv32, i: nat)
    requires i < 5
    ensures Tap(top, i) == if TopBit(top, i) then GEN[i] else 0
  {
  }

  lemma TapLinear(s: bv32, t: bv32, i: nat)
    requires i < 5
    ensures Tap(Xor(s, t), i) == Xor(Tap(s, i), Tap(t, i))
  {
    hide *;
    TapIs(Xor(s, t), i);
    TapIs(s, i);
    TapIs(t, i);
    TopBitLinear(s, t, i);
    XorZero(Tap(s, i));
    XorZero(Tap(t, i));
  }

  lemma {:induction false} FedBackLinear(a: bv32, b: bv32, s: bv32, t: bv32, n: nat)
    requires n <= 5
    ensures FedBack(Xor(a, b), Xor(s, t), n) == Xor(FedBack(a, s, n), FedBack(b, t, n))
  {
    hide *;
    if n == 0 {
      FedBackNone(a, s);
      FedBackNone(b, t);
      FedBackNone(Xor(a, b), Xor(s, t));
    } else {
      FedBackLinear(a, b, s, t, n - 1);
      TapLinear(s, t, n - 1);
      FedBackMore(a, s, n - 1);
      FedBackMore(b, t, n - 1);
      FedBackMore(Xor(a, b), Xor(s, t), n - 1);
      XorShuffle(FedBack(a, s, n - 1), FedBack(b, t, n - 1), Tap(s, n - 1), Tap(t, n - 1));
    }
  }

  lemma StepIs(chk: bv32, v: bv32)
    ensures Step(chk, v) == FedBack(Shifted(chk, v), Top(chk), 5)
  {
  }

  lemma StepLinear(a: bv32, b: bv32, v: bv32, w: bv32)
    ensures Step(Xor(a, b), Xor(v, w)) == Xor(Step(a, v), Step(b, w))
  {
    hide *;
    StepIs(a, v);
    StepIs(b, w);
    StepIs(Xor(a, b), Xor(v, w));
    ShiftedLinear(a, b, v, w);
    TopLinear(a, b);
    FedBackLinear(Shifted(a, v), Shifted(b, w), Top(a), Top(b), 5);
  }

  function Zeros(n: nat): (z: seq<bv32>)
    ensures |z| == n
  {
    if n == 0 then [] else [0] + Zeros(n - 1)
  }

  lemma ZerosMore(n: nat)
    ensures Zeros(n + 1) == [0] + Zeros(n) && Zeros(0) == []
  {
  }

  lemma PolyCons(chk: bv32, v: bv32, rest: seq<bv32>)
    ensures Poly(chk, [v] + rest) == Poly(Step(chk, v), rest)
  {
    assert ([v] + rest)[1..] == rest;
  }

  lemma PolyNone(chk: bv32)
    ensures Poly(chk, []) == chk
  {
  }

  /** What the symbols contribute does not depend on the state they meet. */
  lemma {:induction false} PolyLinear(a: bv32, b: bv32, values: seq<bv32>)
    ensures Poly(Xor(a, b), values) == Xor(Poly(a, Zeros(|values|)), Poly(b, values))
    decreases |values|
  {
    hide *;
    if values == [] {
      ZerosMore(0);
      PolyNone(a);
      PolyNone(b);
      PolyNone(Xor(a, b));
    } else {
      var v, rest := SplitFirst(values);
      ZerosMore(|rest|);
      PolyCons(Xor(a, b), v, rest);
      PolyCons(b, v, rest);
      PolyCons(a, 0, Zeros(|rest|));
      XorZero(v);
      StepLinear(a, b, 0, v);
      PolyLinear(Step(a, 0), Step(b, v), rest);
    }
  }

  lemma {:induction false} PolyAppend(chk: bv32, a: seq<bv32>, b: seq<bv32>)
    ensures Poly(chk, a + b) == Poly(Poly(chk, a), b)
    decreases |a|
  {
    hide *;
    if a == [] {
      assert a + b == b;
      PolyNone(chk);
    } else {
      var v, rest := SplitFirst(a);
      assert ([v] + rest) + b == [v] + (rest + b);
      PolyCons(chk, v, rest + b);
      PolyCons(chk, v, rest);
      PolyAppend(Step(chk, v), rest, b);
    }
  }

  // --- states stay below thirty bits --------------------------------------------------

  predicate Fits(a: bv32) {
    a < 0x4000_0000
  }

  predicate AllFit(values: seq<bv32>) {
    forall k | 0 <= k < |values| :: Fits(values[k])
  }

  lemma AllFitCons(v: bv32, rest: seq<bv32>)
    ensures AllFit([v] + rest) <==> Fits(v) && AllFit(rest)
    ensures AllFit([])
  {
    hide Fits;
    var s := [v] + rest;
    assert s[0] == v && forall k | 0 <= k < |rest| :: s[k + 1] == rest[k];
  }

  lemma XorFits(a: bv32, b: bv32)
    requires Fits(a) && Fits(b)
    ensures Fits(Xor(a, b))
  {
  }

  lemma ShiftedFits(chk: bv32, v: bv32)
    requires Fits(v)
    ensures Fits(Shifted(chk, v))
  {
  }

  lemma TapFits(top: bv32, i: nat)
    requires i < 5
    ensures Fits(Tap(top, i))
  {
    hide TopBit;
  }

  lemma {:induction false} FedBackFits(chk: bv32, top: bv32, n: nat)
    requires n <= 5 && Fits(chk)
    ensures Fits(FedBack(chk, top, n))
  {
    hide *;
    if n == 0 {
      FedBackNone(chk, top);
    } else {
      FedBackFits(chk, top, n - 1);
      TapFits(top, n - 1);
      FedBackMore(chk, top, n - 1);
      XorFits(FedBack(chk, top, n - 1), Tap(top, n - 1));
    }
  }

  lemma StepFits(chk: bv32, v: bv32)
    requires Fits(v)
    ensures Fits(Step(chk, v))
  {
    hide *;
    StepIs(chk, v);
    ShiftedFits(chk, v);
    FedBackFits(Shifted(chk, v), Top(chk), 5);
  }

  lemma {:induction false} PolyFits(chk: bv32, values: seq<bv32>)
    requires Fits(chk) && AllFit(values)
    ensures Fits(Poly(chk, values))
    decreases |values|
  {
    hide *;
    if values == [] {
      PolyNone(chk);
    } else {
      var v, rest := SplitFirst(values);
      AllFitCons(v, rest);
      PolyCons(chk, v, rest);
      StepFits(chk, v);
      PolyFits(Step(chk, v), rest);
    }
  }

  // --- six symbols fill an empty register -------------------------------------------------

  function Symbols(p: bv32): (s: seq<bv32>)
    ensures |s| == 6
  {
    [(p >> 25) & 31, (p >> 20) & 31, (p >> 15) & 31, (p >> 10) & 31, (p >> 5) & 31, p & 31]
  }

  lemma TapNothing(i: nat)
    requires i < 5
    ensures Tap(0, i) == 0
  {
  }

  lemma {:induction false} FedBackNothing(chk: bv32, n: nat)
    requires n <= 5
    ensures FedBack(chk, 0, n) == chk
  {
    hide *;
    if n == 0 {
      FedBackNone(chk, 0);
    } else {
      FedBackNothing(chk, n - 1);
      FedBackMore(chk, 0, n - 1);
      TapNothing(n - 1);
      XorZero(chk);
    }
  }

  predicate Quiet(chk: bv32) {
    chk < 0x0200_0000
  }

  lemma QuietTop(chk: bv32)
    requires Quiet(chk)
    ensures Top(chk) == 0
  {
  }

  // Nothing is fed back until the register is full.
  lemma StepQuiet(chk: bv32, v: bv32)
    requires Quiet(chk)
    ensures Step(chk, v) == Shifted(chk, v)
  {
    hide *;
    StepIs(chk, v);
    QuietTop(chk);
    FedBackNothing(Shifted(chk, v), 5);
  }

  // Each state of the refill is the number so far, five more bits of it at a time.

  lemma FillFirst(p: bv32)
    requires Fits(p)
    ensures Quiet(0) && Shifted(0, (p >> 25) & 31) == p >> 25
  {
  }

  lemma FillSecond(p: bv32)
    requires Fits(p)
    ensures Quiet(p >> 25) && Shifted(p >> 25, (p >> 20) & 31) == p >> 20
  {
  }

  lemma FillThird(p: bv32)
    requires Fits(p)
    ensures Quiet(p >> 20) && Shifted(p >> 20, (p >> 15) & 31) == p >> 15
  {
  }

  lemma FillFourth(p: bv32)
    requires Fits(p)
    ensures Quiet(p >> 15) && Shifted(p >> 15, (p >> 10) & 31) == p >> 10
  {
  }

  lemma FillFifth(p: bv32)
    requires Fits(p)
    ensures Quiet(p >> 10) && Shifted(p >> 10, (p >> 5) & 31) == p >> 5
  {
  }

  lemma FillSixth(p: bv32)
    requires Fits(p)
    ensures Quiet(p >> 5) && Shifted(p >> 5, p & 31) == p
  {
  }

  // One symbol of the refill, from one known state to the next.
  lemma RefillOne(chk: bv32, v: bv32, next: bv32, rest: seq<bv32>)
    requires Quiet(chk) && Shifted(chk, v) == next
    ensures Poly(chk, [v] + rest) == Poly(next, rest)
  {
    hide *;
    StepQuiet(chk, v);
    PolyCons(chk, v, rest);
  }

  lemma RefillSix(q: seq<bv32>, v: seq<bv32>)
    requires |q| == 7 && |v| == 6
    requires forall k | 0 <= k < 6 :: Quiet(q[k]) && Shifted(q[k], v[k]) == q[k + 1]
    ensures Poly(q[0], v) == q[6]
  {
    hide *;
    for k := 0 to 6
      invariant Poly(q[0], v) == Poly(q[k], v[k..])
    {
      RefillOne(q[k], v[k], q[k + 1], v[k + 1..]);
      assert v[k..] == [v[k]] + v[k + 1..];
    }
    assert v[6..] == [];
    PolyNone(q[6]);
  }

  lemma Refill(p: bv32)
    requires Fits(p)
    ensures Poly(0, Symbols(p)) == p
  {
    hide Poly, Quiet, Shifted, Fits;
    var q := [0, p >> 25, p >> 20, p >> 15, p >> 10, p >> 5, p];
    var v := Symbols(p);
    FillFirst(p);
    FillSecond(p);
    FillThird(p);
    FillFourth(p);
    FillFifth(p);
    FillSixth(p);
    assert forall k | 0 <= k < 6 :: Quiet(q[k]) && Shifted(q[k], v[k]) == q[k + 1];
    RefillSix(q, v);
  }

  function Checksum(values: seq<bv32>, target: bv32): (s: seq<bv32>)
    ensures |s| == 6
  {
    Symbols(Xor(Poly(1, values + Zeros(6)), target))
  }

  lemma ChecksumIs(values: seq<bv32>, target: bv32)
    ensures Checksum(values, target) == Symbols(Xor(Poly(1, values + Zeros(6)), target))
    ensures Fits(1)
  {
  }

  /** The six computed symbols steer the register to exactly the target. */
  lemma ChecksumHolds(values: seq<bv32>, target: bv32)
    requires AllFit(values) && Fits(target)
    ensures Poly(1, values + Checksum(values, target)) == target
  {
    hide *;
    ChecksumIs(values, target);
    var state := Poly(1, values);
    var empty := Poly(state, Zeros(6));
    PolyAppend(1, values, Zeros(6));
    PolyFits(1, values);
    ZerosFit(6);
    PolyFits(state, Zeros(6));
    XorFits(empty, target);
    var p := Xor(empty, target);
    PolyAppend(1, values, Symbols(p));
    XorZero(state);
    PolyLinear(state, 0, Symbols(p));
    Refill(p);
    XorTwice(empty, target);
  }

  lemma {:induction false} ZerosFit(n: nat)
    ensures AllFit(Zeros(n))
  {
    if n > 0 {
      ZerosFit(n - 1);
      AllFitCons(0, Zeros(n - 1));
    }
  }

  // --- any one wrong symbol is noticed ------------------------------------------------------

  lemma FedBackFive(chk: bv32, t: bv32)
    ensures FedBack(chk, t, 5) == Xor(Xor(Xor(Xor(Xor(chk, Tap(t, 0)), Tap(t, 1)), Tap(t, 2)), Tap(t, 3)), Tap(t, 4))
  {
    hide *;
    FedBackNone(chk, t);
    FedBackMore(chk, t, 0);
    FedBackMore(chk, t, 1);
    FedBackMore(chk, t, 2);
    FedBackMore(chk, t, 3);
    FedBackMore(chk, t, 4);
  }

  // The lowest bits of the five taps are independent: feedback cannot vanish.
  lemma Kernel(d: bv32)
    requires Fits(d)
    requires var s, t := Shifted(d, 0), Top(d);
             Xor(Xor(Xor(Xor(Xor(s, Tap(t, 0)), Tap(t, 1)), Tap(t, 2)), Tap(t, 3)), Tap(t, 4)) == 0
    ensures d == 0
  {
  }

  lemma StepInjective(a: bv32, b: bv32, v: bv32)
    requires Fits(a) && Fits(b) && Step(a, v) == Step(b, v)
    ensures a == b
  {
    hide *;
    var d := Xor(a, b);
    XorFits(a, b);
    XorZero(v);
    StepLinear(a, b, v, v);
    XorZero(Step(a, v));
    StepIs(d, 0);
    FedBackFive(Shifted(d, 0), Top(d));
    Kernel(d);
    XorEqual(a, b);
  }

  lemma {:induction false} PolyInjective(a: bv32, b: bv32, values: seq<bv32>)
    requires Fits(a) && Fits(b) && a != b && AllFit(values)
    ensures Poly(a, values) != Poly(b, values)
    decreases |values|
  {
    hide *;
    if values == [] {
      PolyNone(a);
      PolyNone(b);
    } else {
      var v, rest := SplitFirst(values);
      AllFitCons(v, rest);
      PolyCons(a, v, rest);
      PolyCons(b, v, rest);
      StepFits(a, v);
      StepFits(b, v);
      if Step(a, v) == Step(b, v) {
        StepInjective(a, b, v);
      }
      PolyInjective(Step(a, v), Step(b, v), rest);
    }
  }

  lemma ShiftedZero()
    ensures Shifted(0, 0) == 0 && Top(0) == 0
  {
  }

  lemma ShiftedSymbol(v: bv32)
    ensures Shifted(0, v) == v
  {
  }

  lemma StepDistinct(chk: bv32, v: bv32, w: bv32)
    requires Step(chk, v) == Step(chk, w)
    ensures v == w
  {
    hide *;
    StepLinear(chk, chk, v, w);
    XorZero(chk);
    XorZero(Step(chk, v));
    StepIs(0, Xor(v, w));
    ShiftedZero();
    ShiftedSymbol(Xor(v, w));
    FedBackNothing(Xor(v, w), 5);
    XorEqual(v, w);
  }

  /** Changing one symbol changes the register's final value. */
  lemma OneErrorDetected(before: seq<bv32>, v: bv32, w: bv32, after: seq<bv32>)
    requires AllFit(before) && AllFit(after) && Fits(v) && Fits(w) && v != w
    ensures Poly(1, before + [v] + after) != Poly(1, before + [w] + after)
  {
    hide *;
    var state := Poly(1, before);
    assert before + [v] + after == before + ([v] + after);
    assert before + [w] + after == before + ([w] + after);
    PolyAppend(1, before, [v] + after);
    PolyAppend(1, before, [w] + after);
    PolyCons(state, v, after);
    PolyCons(state, w, after);
    StepFits(state, v);
    StepFits(state, w);
    if Step(state, v) == Step(state, w) {
      StepDistinct(state, v, w);
    }
    PolyInjective(Step(state, v), Step(state, w), after);
  }
}
