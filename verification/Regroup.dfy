// Regrouping the bits of a byte string into wider or narrower digits.
module Regroup {
  import opened Sequences
  import opened Bytes

  /** A digit sequence read as a number, most significant digit first. */
  function Value(s: seq<nat>, base: nat): nat {
    if s == [] then 0 else Value(s[..|s| - 1], base) * base + s[|s| - 1]
  }

  predicate Digits(s: seq<nat>, base: nat) {
    forall k | 0 <= k < |s| :: s[k] < base
  }

  lemma ValueSnoc(s: seq<nat>, d: nat, base: nat)
    ensures Value(s + [d], base) == Value(s, base) * base + d
  {
    assert (s + [d])[..|s|] == s;
  }

  lemma DigitsSnoc(s: seq<nat>, d: nat, base: nat)
    requires Digits(s + [d], base)
    ensures Digits(s, base) && d < base
  {
    assert (s + [d])[|s|] == d;
    assert forall k | 0 <= k < |s| :: (s + [d])[k] == s[k];
  }

  lemma MulMonotone(m: nat, n: nat, b: nat)
    requires m <= n
    ensures m * b <= n * b
  {
  }

  lemma MulSucc(m: nat, b: nat)
    ensures (m + 1) * b == m * b + b
  {
  }

  lemma QuotientLess(q: nat, r: nat, q': nat, r': nat, b: nat)
    requires q < q' && r < b
    ensures q * b + r < q' * b + r'
  {
    MulMonotone(q + 1, q', b);
    MulSucc(q, b);
  }

  lemma QuotientRemainder(q: nat, r: nat, q': nat, r': nat, b: nat)
    requires r < b && r' < b && q * b + r == q' * b + r'
    ensures q == q' && r == r'
  {
    if q < q' {
      QuotientLess(q, r, q', r', b);
    }
    if q' < q {
      QuotientLess(q', r', q, r, b);
    }
  }

  /** Equally many digits denote a number in one way only. */
  lemma {:induction false} ValueInjective(s: seq<nat>, t: seq<nat>, base: nat)
    requires |s| == |t| && Digits(s, base) && Digits(t, base)
    requires Value(s, base) == Value(t, base)
    ensures s == t
    decreases |s|
  {
    if s != [] {
      var s', d := SplitLast(s);
      var t', e := SplitLast(t);
      hide Value;
      ValueSnoc(s', d, base);
      ValueSnoc(t', e, base);
      DigitsSnoc(s', d, base);
      DigitsSnoc(t', e, base);
      QuotientRemainder(Value(s', base), d, Value(t', base), e, base);
      ValueInjective(s', t', base);
    }
  }

  lemma {:induction false} PowAdd(b: nat, m: nat, n: nat)
    ensures Pow(b, m + n) == Pow(b, m) * Pow(b, n)
  {
    if m > 0 {
      PowAdd(b, m - 1, n);
      assert b * Pow(b, m - 1 + n) == b * (Pow(b, m - 1) * Pow(b, n)) == (b * Pow(b, m - 1)) * Pow(b, n);
    }
  }

  lemma DivUnique(n: nat, d: nat, q: nat, r: nat)
    requires d > 0 && n == q * d + r && r < d
    ensures n / d == q && n % d == r
  {
    QuotientRemainder(n / d, n % d, q, r, d);
  }

  lemma DivDiv(n: nat, a: nat, b: nat)
    requires a > 0 && b > 0
    ensures a * b > 0 && n / (a * b) == n / a / b
  {
    MulMonotone(1, b, a);
    DivDivWith(n, a, b, n / a, n % a, n / a / b, n / a % b);
  }

  lemma DivDivWith(n: nat, a: nat, b: nat, q: nat, r: nat, q': nat, r': nat)
    requires n == q * a + r && r < a && q == q' * b + r' && r' < b && a * b > 0
    ensures n / (a * b) == q'
  {
    MixedRadix(q', r', r, a, b);
    DivUnique(n, a * b, q', r' * a + r);
  }

  lemma MixedRadix(q: nat, r': nat, r: nat, a: nat, b: nat)
    requires r < a && r' < b
    ensures (q * b + r') * a + r == q * (a * b) + (r' * a + r)
    ensures r' * a + r < a * b
  {
    MulMonotone(r' + 1, b, a);
    MulSucc(r', a);
    calc {
      (q * b + r') * a;
      (q * b) * a + r' * a;
      { assert (q * b) * a == q * (b * a); }
      q * (a * b) + r' * a;
    }
  }

  /** What regrouping promises: the same number, padded on the right by fewer
      bits than one output digit holds. */
  predicate Regrouped(data: seq<nat>, from: nat, to: nat, ret: seq<nat>) {
    && Digits(ret, Pow(2, to))
    && 0 <= |ret| * to - |data| * from < to
    && Value(ret, Pow(2, to)) == Value(data, Pow(2, from)) * Pow(2, |ret| * to - |data| * from)
  }

  /** Without padding the leftover bits are dropped. */
  predicate Truncated(data: seq<nat>, from: nat, to: nat, ret: seq<nat>) {
    && Digits(ret, Pow(2, to))
    && 0 <= |data| * from - |ret| * to < to
    && Value(ret, Pow(2, to)) == Value(data, Pow(2, from)) / Pow(2, |data| * from - |ret| * to)
  }

  // acc << n and acc >> n are multiplication and division by 2^n, and or-ing a
  // value into cleared low bits is addition.
  method ConvertBits(data: seq<nat>, from: nat, to: nat, pad: bool) returns (ret: seq<nat>)
    requires to > 0 && Digits(data, Pow(2, from))
    ensures if pad then Regrouped(data, from, to, ret) else Truncated(data, from, to, ret)
  {
    hide Value, Pow;
    var acc: nat, bits: nat := 0, 0;
    ret := [];
    ghost var read: nat, written: nat := 0, 0;
    ghost var f, t := Pow(2, from), Pow(2, to);
    ValueEmpty(f);
    ValueEmpty(t);
    PowZero();
    assert data[..0] == [];
    for i := 0 to |data|
      invariant Digits(ret, t)
      invariant acc == Value(data[..i], f)
      invariant read == i * from && written == |ret| * to
      invariant bits < to && bits + written == read
      invariant Value(ret, t) == acc / Pow(2, bits)
    {
      var value := data[i];
      assert data[..i + 1] == data[..i] + [value];
      ValueSnoc(data[..i], value, f);
      Incoming(acc, bits, value, from);
      acc := acc * Pow(2, from) + value;
      bits := bits + from;
      read := read + from;
      MulSucc(i, from);
      while bits >= to
        invariant Digits(ret, t)
        invariant written == |ret| * to && bits + written == read
        invariant Value(ret, t) == acc / Pow(2, bits)
      {
        bits := bits - to;
        var d := (acc / Pow(2, bits)) % Pow(2, to);
        Outgoing(acc, bits, to);
        ValueSnoc(ret, d, t);
        MulSucc(|ret|, to);
        written := written + to;
        ret := ret + [d];
      }
    }
    assert data[..|data|] == data;
    if pad && bits > 0 {
      var d := (acc * Pow(2, to - bits)) % Pow(2, to);
      Padding(acc, bits, to);
      ValueSnoc(ret, d, t);
      MulSucc(|ret|, to);
      ret := ret + [d];
    }
  }

  lemma ValueEmpty(base: nat)
    ensures Value([], base) == 0
  {
  }

  lemma PowZero()
    ensures Pow(2, 0) == 1
  {
  }

  lemma Incoming(acc: nat, bits: nat, value: nat, from: nat)
    requires value < Pow(2, from)
    ensures (acc * Pow(2, from) + value) / Pow(2, bits + from) == acc / Pow(2, bits)
  {
    hide Pow;
    var f := Pow(2, from);
    PowAdd(2, from, bits);
    DivDiv(acc * f + value, f, Pow(2, bits));
    DivUnique(acc * f + value, f, acc, value);
  }

  lemma Outgoing(acc: nat, bits: nat, to: nat)
    ensures var q := acc / Pow(2, bits);
            acc / Pow(2, bits + to) * Pow(2, to) + q % Pow(2, to) == q
  {
    hide Pow;
    PowAdd(2, bits, to);
    DivDiv(acc, Pow(2, bits), Pow(2, to));
  }

  lemma Padding(acc: nat, bits: nat, to: nat)
    requires bits < to
    ensures acc / Pow(2, bits) * Pow(2, to) + (acc * Pow(2, to - bits)) % Pow(2, to) == acc * Pow(2, to - bits)
  {
    hide Pow;
    var b, p, t := Pow(2, bits), Pow(2, to - bits), Pow(2, to);
    PowAdd(2, bits, to - bits);
    var q, r := acc / b, acc % b;
    assert acc * p == q * t + r * p by {
      assert (q * b + r) * p == q * (b * p) + r * p;
    }
    assert r * p < t by {
      assert (r + 1) * p <= b * p;
    }
    DivUnique(acc * p, t, q, r * p);
  }

  /** The output has ceil(from * n / to) digits... */
  lemma RegroupedLength(data: seq<nat>, from: nat, to: nat, ret: seq<nat>)
    requires to > 0 && Regrouped(data, from, to, ret)
    ensures |ret| == (|data| * from + to - 1) / to
  {
    DivUnique(|data| * from + to - 1, to, |ret|, |data| * from + to - 1 - |ret| * to);
  }

  /** ...and for inputs of one length determines the input. */
  lemma RegroupedInjective(a: seq<nat>, b: seq<nat>, from: nat, to: nat, ret: seq<nat>)
    requires |a| == |b| && Digits(a, Pow(2, from)) && Digits(b, Pow(2, from))
    requires Regrouped(a, from, to, ret) && Regrouped(b, from, to, ret)
    ensures a == b
  {
    hide Value, Pow;
    var p := Pow(2, |ret| * to - |a| * from);
    var f := Pow(2, from);
    assert Value(a, f) == Value(b, f) by {
      CancelRight(Value(a, f), Value(b, f), p);
    }
    ValueInjective(a, b, f);
  }

  lemma CancelRight(m: nat, n: nat, p: nat)
    requires p > 0 && m * p == n * p
    ensures m == n
  {
    QuotientRemainder(m, 0, n, 0, p);
  }

  /** The promise leaves one output only. */
  lemma RegroupedUnique(data: seq<nat>, from: nat, to: nat, r: seq<nat>, r': seq<nat>)
    requires to > 0 && Regrouped(data, from, to, r) && Regrouped(data, from, to, r')
    ensures r == r'
  {
    hide Value, Pow;
    RegroupedLength(data, from, to, r);
    RegroupedLength(data, from, to, r');
    ValueInjective(r, r', Pow(2, to));
  }
}
