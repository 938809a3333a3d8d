// Numbers and the digit strings without superfluous zeros that stand for them.
module Numerals {
  import opened Sequences
  import opened Regroup

  /** The digits of `n` in `base`, none for zero. */
  function Minimal(n: nat, base: nat): seq<nat>
    requires base >= 2
  {
    if n == 0 then []
    else
      QuotientShrinks(n, base);
      Minimal(n / base, base) + [n % base]
  }

  lemma QuotientShrinks(n: nat, base: nat)
    requires n > 0 && base >= 2
    ensures n / base < n
  {
    var q, r := n / base, n % base;
    assert n == q * base + r;
    MulMonotone(2, base, q);
  }

  function LeadingZeros(s: seq<nat>): (k: nat)
    ensures k <= |s|
    ensures forall i | 0 <= i < k :: s[i] == 0
    ensures k < |s| ==> s[k] != 0
  {
    if s == [] || s[0] != 0 then 0 else 1 + LeadingZeros(s[1..])
  }

  lemma LeadingZerosIs(s: seq<nat>, k: nat)
    requires k <= |s| && (forall i | 0 <= i < k :: s[i] == 0) && (k < |s| ==> s[k] != 0)
    ensures LeadingZeros(s) == k
  {
    hide LeadingZeros;
    var z := LeadingZeros(s);
    assert k < |s| && z < |s| ==> s[k] != 0 && s[z] != 0;
  }

  function Zeros(k: nat): (s: seq<nat>)
    ensures |s| == k && forall i | 0 <= i < k :: s[i] == 0
  {
    seq(k, _ => 0)
  }

  predicate IsMinimal(s: seq<nat>) {
    s == [] || s[0] != 0
  }

  lemma {:induction false} MinimalDigits(n: nat, base: nat)
    requires base >= 2
    ensures Digits(Minimal(n, base), base) && IsMinimal(Minimal(n, base))
    ensures Value(Minimal(n, base), base) == n
    ensures n != 0 ==> Minimal(n, base) != []
  {
    hide Value, Minimal;
    if n == 0 {
      MinimalOfZero(base);
      ValueEmpty(base);
    } else {
      var q, r := n / base, n % base;
      QuotientShrinks(n, base);
      MinimalStep(n, q, r, base);
      MinimalDigits(q, base);
      ValueSnoc(Minimal(q, base), r, base);
      assert n == q * base + r;
      if q == 0 {
        MinimalOfZero(base);
      }
    }
  }

  lemma MinimalOfZero(base: nat)
    requires base >= 2
    ensures Minimal(0, base) == []
  {
  }

  lemma MinimalStep(n: nat, q: nat, r: nat, base: nat)
    requires n > 0 && base >= 2 && q == n / base && r == n % base
    ensures Minimal(n, base) == Minimal(q, base) + [r]
  {
  }

  lemma {:induction false} MinimalUnique(s: seq<nat>, base: nat)
    requires base >= 2 && Digits(s, base) && IsMinimal(s)
    ensures Minimal(Value(s, base), base) == s
    ensures s != [] ==> Value(s, base) != 0
    decreases |s|
  {
    if s != [] {
      var init, d := SplitLast(s);
      DigitsSnoc(init, d, base);
      assert IsMinimal(init);
      MinimalUnique(init, base);
      hide Value;
      ValueSnoc(init, d, base);
      if init == [] {
        ValueEmpty(base);
      }
      var n, q := Value(s, base), Value(init, base);
      DivUnique(n, base, q, d);
      MulPositive(q, base);
      hide Minimal;
      MinimalStep(n, q, d, base);
    }
  }

  lemma MulPositive(n: nat, b: nat)
    requires b > 0
    ensures n > 0 ==> n * b > 0
  {
  }

  lemma {:induction false} ValueOfZeros(k: nat, s: seq<nat>, base: nat)
    ensures Value(Zeros(k) + s, base) == Value(s, base)
    decreases k + |s|
  {
    if s != [] {
      var init, d := SplitLast(s);
      assert Zeros(k) + s == (Zeros(k) + init) + [d];
      ValueOfZeros(k, init, base);
      hide Value;
      ValueSnoc(Zeros(k) + init, d, base);
      ValueSnoc(init, d, base);
    } else if k > 0 {
      assert Zeros(k) + s == (Zeros(k - 1) + s) + [0];
      ValueOfZeros(k - 1, s, base);
      hide Value;
      ValueSnoc(Zeros(k - 1) + s, 0, base);
      ValueEmpty(base);
    } else {
      assert Zeros(0) + s == s;
    }
  }

  lemma LeadingZerosOf(k: nat, s: seq<nat>)
    requires IsMinimal(s)
    ensures LeadingZeros(Zeros(k) + s) == k
  {
    var t := Zeros(k) + s;
    assert forall i | 0 <= i < k :: t[i] == 0;
    assert k < |t| ==> t[k] == s[0];
    LeadingZerosIs(t, k);
  }

  lemma SplitZeros(s: seq<nat>) returns (k: nat, m: seq<nat>)
    ensures s == Zeros(k) + m && IsMinimal(m) && k == LeadingZeros(s)
  {
    k := LeadingZeros(s);
    m := s[k..];
    assert s[..k] == Zeros(k);
  }
}
