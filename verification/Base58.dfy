// Base58 with a checksum: a byte string rewritten as a number in base 58, with
// one leading digit zero for every leading zero byte.
module Base58 {
  import opened Wrappers
  import opened Bytes
  import opened Regroup
  import opened Numerals

  type digest = d: bytes | |d| == 32 witness seq(32, _ => 0)

  // --- changing the base of a string --------------------------------------------------

  function Rebased(s: seq<nat>, from: nat, to: nat): seq<nat>
    requires to >= 2
  {
    Zeros(LeadingZeros(s)) + Minimal(Value(s, from), to)
  }

  /** Changing the base and changing it back returns every string. */
  lemma RebasedBack(s: seq<nat>, from: nat, to: nat)
    requires from >= 2 && to >= 2 && Digits(s, from)
    ensures Rebased(Rebased(s, from, to), to, from) == s
    ensures Digits(Rebased(s, from, to), to)
  {
    hide Value, Minimal, LeadingZeros, Zeros;
    var k, m := SplitZeros(s);
    assert Digits(m, from) by {
      assert forall i | 0 <= i < |m| :: m[i] == s[k + i];
    }
    ValueOfZeros(k, m, from);
    var n := Value(m, from);
    var t := Minimal(n, to);
    MinimalDigits(n, to);
    ZerosAreDigits(k, t, to);
    LeadingZerosOf(k, t);
    ValueOfZeros(k, t, to);
    MinimalUnique(m, from);
  }

  lemma ZerosAreDigits(k: nat, t: seq<nat>, base: nat)
    requires base > 0 && Digits(t, base)
    ensures Digits(Zeros(k) + t, base)
  {
  }

  // --- characters ------------------------------------------------------------------------

  // The alphabet is the digits and the letters without 0, O, I and l.

  function CharacterAt(first: char, k: nat): char
    requires k < 26 && first < 'n'
  {
    (first as int + k) as char
  }

  function CharacterOf(d: nat): char
    requires d < 58
  {
    if d < 9 then CharacterAt('1', d)
    else if d < 17 then CharacterAt('A', d - 9)
    else if d < 22 then CharacterAt('J', d - 17)
    else if d < 33 then CharacterAt('P', d - 22)
    else if d < 44 then CharacterAt('a', d - 33)
    else CharacterAt('m', d - 44)
  }

  function DigitOf(c: char): nat {
    if '1' <= c <= '9' then c as int - '1' as int
    else if 'A' <= c <= 'H' then c as int - 'A' as int + 9
    else if 'J' <= c <= 'N' then c as int - 'J' as int + 17
    else if 'P' <= c <= 'Z' then c as int - 'P' as int + 22
    else if 'a' <= c <= 'k' then c as int - 'a' as int + 33
    else if 'm' <= c <= 'z' then c as int - 'm' as int + 44
    else 58
  }

  lemma DigitOfCharacter(d: nat)
    requires d < 58
    ensures DigitOf(CharacterOf(d)) == d
    ensures CharacterOf(0) == '1'
  {
  }

  function Written(d: seq<nat>): (text: string)
    requires Digits(d, 58)
    ensures |text| == |d|
  {
    seq(|d|, i requires 0 <= i < |d| => CharacterOf(d[i]))
  }

  function Read(text: string): (d: seq<nat>)
    ensures |d| == |text|
  {
    seq(|text|, i requires 0 <= i < |text| => DigitOf(text[i]))
  }

  lemma WrittenReads(d: seq<nat>)
    requires Digits(d, 58)
    ensures Read(Written(d)) == d
  {
    hide DigitOf;
    forall i | 0 <= i < |d| ensures Read(Written(d))[i] == d[i] {
      DigitOfCharacter(d[i]);
    }
  }

  // --- the encoder -----------------------------------------------------------------------

  function WithChecksum(payload: bytes, doubleSha: bytes -> digest): bytes {
    payload + doubleSha(payload)[..4]
  }

  /** The digits of a number, least significant first, each put in front. */
  method WriteNumber(number: nat) returns (text: string)
    ensures Digits(Minimal(number, 58), 58)
    ensures text == Written(Minimal(number, 58))
  {
    hide *;
    var n := number;
    MinimalDigits(n, 58);
    WrittenNothing();
    ghost var digits: seq<nat> := [];
    text := "";
    assert Minimal(n, 58) + digits == Minimal(n, 58);
    while n > 0
      invariant Digits(digits, 58) && text == Written(digits)
      invariant Minimal(number, 58) == Minimal(n, 58) + digits
    {
      var rem := n % 58;
      Prepend(rem, digits);
      QuotientShrinks(n, 58);
      Shifted(n, n / 58, rem, digits);
      digits := [rem] + digits;
      text := [CharacterOf(rem)] + text;
      n := n / 58;
    }
    MinimalOfZero(58);
    assert [] + digits == digits;
  }

  method CheckEncode(payload: bytes, doubleSha: bytes -> digest) returns (text: string)
    ensures Digits(Rebased(WithChecksum(payload, doubleSha), 256, 58), 58)
    ensures text == Written(Rebased(WithChecksum(payload, doubleSha), 256, 58))
  {
    var data: seq<nat> := WithChecksum(payload, doubleSha);
    var n := Value(data, 256);
    hide *;
    text := WriteNumber(n);
    ghost var m := Minimal(n, 58);
    NoZeros(m);
    var i := 0;
    while i < |data|
      invariant i <= |data| && forall j | 0 <= j < i :: data[j] == 0
      invariant Digits(Zeros(i) + m, 58) && text == Written(Zeros(i) + m)
    {
      if data[i] != 0 {
        break;
      }
      Prepend(0, Zeros(i) + m);
      MoreZeros(i, m);
      text := "1" + text;
      i := i + 1;
    }
    LeadingZerosIs(data, i);
    RebasedIs(data, 256, 58);
  }

  lemma Shifted(n: nat, q: nat, r: nat, digits: seq<nat>)
    requires n > 0 && q == n / 58 && r == n % 58
    ensures Minimal(n, 58) + digits == Minimal(q, 58) + ([r] + digits)
  {
    hide Minimal;
    MinimalStep(n, q, r, 58);
  }

  lemma NoZeros(s: seq<nat>)
    ensures Zeros(0) + s == s
  {
  }

  lemma MoreZeros(k: nat, s: seq<nat>)
    ensures [0] + (Zeros(k) + s) == Zeros(k + 1) + s
  {
  }

  lemma RebasedIs(s: seq<nat>, from: nat, to: nat)
    requires to >= 2
    ensures Rebased(s, from, to) == Zeros(LeadingZeros(s)) + Minimal(Value(s, from), to)
  {
  }

  lemma WrittenNothing()
    ensures Digits([], 58) && Written([]) == ""
  {
  }

  lemma Prepend(d: nat, digits: seq<nat>)
    requires d < 58 && Digits(digits, 58)
    ensures Digits([d] + digits, 58) && Written([d] + digits) == [CharacterOf(d)] + Written(digits)
    ensures CharacterOf(0) == '1'
  {
    DigitOfCharacter(0);
    DigitsCons(d, digits, 58);
    hide CharacterOf, Digits;
    WrittenCons([d] + digits, digits);
  }

  lemma DigitsCons(d: nat, digits: seq<nat>, base: nat)
    requires d < base && Digits(digits, base)
    ensures Digits([d] + digits, base)
  {
    var s := [d] + digits;
    forall k | 0 <= k < |s| ensures s[k] < base {
      assert s[k] == if k == 0 then d else digits[k - 1];
    }
  }

  lemma WrittenCons(s: seq<nat>, rest: seq<nat>)
    requires Digits(s, 58) && Digits(rest, 58) && |s| == 1 + |rest| && s[1..] == rest
    ensures s[0] < 58 && Written(s) == [CharacterOf(s[0])] + Written(rest)
  {
    hide CharacterOf;
    assert forall k | 0 < k < |s| :: s[k] == rest[k - 1];
  }

  // --- the reader an address is checked with, and the laws -------------------------------

  function CheckDecode(text: string, doubleSha: bytes -> digest): Option<bytes> {
    var d := Rebased(Read(text), 58, 256);
    if !Digits(d, 256) || |d| < 4 then None
    else
      var data: bytes := d;
      var payload := data[..|data| - 4];
      if data[|data| - 4..] == doubleSha(payload)[..4] then Some(payload) else None
  }

  /** Every payload reads back from its text. */
  lemma CheckRoundTrip(payload: bytes, doubleSha: bytes -> digest)
    ensures Digits(Rebased(WithChecksum(payload, doubleSha), 256, 58), 58)
    ensures CheckDecode(Written(Rebased(WithChecksum(payload, doubleSha), 256, 58)), doubleSha) == Some(payload)
  {
    hide Rebased, Read, Written;
    var data := WithChecksum(payload, doubleSha);
    RebasedBack(data, 256, 58);
    WrittenReads(Rebased(data, 256, 58));
    assert data[..|data| - 4] == payload;
  }

  /** Two payloads with the same text are the same payload. */
  lemma CheckInjective(a: bytes, b: bytes, doubleSha: bytes -> digest)
    requires Digits(Rebased(WithChecksum(a, doubleSha), 256, 58), 58)
    requires Digits(Rebased(WithChecksum(b, doubleSha), 256, 58), 58)
    requires Written(Rebased(WithChecksum(a, doubleSha), 256, 58))
          == Written(Rebased(WithChecksum(b, doubleSha), 256, 58))
    ensures a == b
  {
    hide *;
    CheckRoundTrip(a, doubleSha);
    CheckRoundTrip(b, doubleSha);
  }

  /** The text opens with exactly one '1' for each leading zero byte. */
  lemma OnesAreLeadingZeros(data: bytes)
    ensures Digits(Rebased(data, 256, 58), 58)
    ensures var text, k := Written(Rebased(data, 256, 58)), LeadingZeros(data);
            && k <= |text|
            && (forall i | 0 <= i < k :: text[i] == '1')
            && (k < |text| ==> text[k] != '1')
  {
    RebasedBack(data, 256, 58);
    var n := Value(data, 256);
    var d, k := Rebased(data, 256, 58), LeadingZeros(data);
    hide Value, Minimal, LeadingZeros;
    MinimalDigits(n, 58);
    DigitOfCharacter(0);
    if k < |d| {
      assert d[k] == Minimal(n, 58)[0];
      DigitOfCharacter(d[k]);
    }
  }
}
