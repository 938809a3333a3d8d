// DER encoding of an ECDSA signature: a sequence of two minimal signed integers.
module Der {
  import opened Wrappers
  import opened Sequences
  import opened Bytes
  import opened Regroup
  import opened Numerals

  // --- fixed-width big-endian integers ---------------------------------------------

  function BigEndian(n: nat, k: nat): (s: bytes)
    ensures |s| == k
  {
    if k == 0 then [] else BigEndian(n / 256, k - 1) + [n % 256]
  }

  lemma {:induction false} BigEndianOfValue(s: bytes)
    ensures BigEndian(Value(s, 256), |s|) == s
    ensures Value(s, 256) < Pow(256, |s|)
    decreases |s|
  {
    if s == [] {
    } else {
      var init, last := SplitLast(s);
      BigEndianOfValue(init);
      hide Value, BigEndian;
      ValueSnoc(init, last, 256);
      BigEndianStep(Value(s, 256), Value(init, 256), last, |s|);
    }
  }

  lemma BigEndianStep(n: nat, q: nat, r: byte, k: nat)
    requires n == q * 256 + r && k > 0
    ensures BigEndian(n, k) == BigEndian(q, k - 1) + [r]
    ensures q < Pow(256, k - 1) ==> n < Pow(256, k)
  {
    assert n / 256 == q && n % 256 == r;
  }

  lemma {:induction false} ValueOfBigEndian(n: nat, k: nat)
    requires n < Pow(256, k)
    ensures Value(BigEndian(n, k), 256) == n
  {
    if k > 0 {
      ValueOfBigEndian(n / 256, k - 1);
      hide Value;
      ValueSnoc(BigEndian(n / 256, k - 1), n % 256, 256);
    }
  }

  // --- the encoder --------------------------------------------------------------------

  /** A byte string without its leading zeros, but not empty. */
  function Stripped(v: bytes): (s: bytes)
    requires |v| > 0
    ensures 1 <= |s| <= |v|
  {
    var s := v[LeadingZeros(v)..];
    if s == [] then [0] else s
  }

  function Integer(v: bytes): (s: bytes)
    requires |v| > 0
    ensures 1 <= |s| <= |v| + 1
  {
    var s := Stripped(v);
    if s[0] >= 0x80 then [0] + s else s
  }

  function Tagged(s: bytes): (t: bytes)
    requires |s| < 256
    ensures |t| == |s| + 2
  {
    [0x02, |s|] + s
  }

  function Sig64ToDer(sig: bytes): (der: bytes)
    requires |sig| == 64
    ensures 8 <= |der| <= 72
  {
    var body := Tagged(Integer(sig[..32])) + Tagged(Integer(sig[32..]));
    [0x30, |body|] + body
  }

  // --- the decoder --------------------------------------------------------------------

  /** None where the Python script raises. */
  function DerToSig64(der: bytes): Option<bytes> {
    if |der| < 8 || der[0] != 0x30 || der[1] != |der| - 2 || der[2] != 0x02 then None
    else
      var off: nat := (der[3] as nat) + 4;
      if off >= |der| || der[off] != 0x02 || off + 1 >= |der| then None
      else
        var end: nat := off + 2 + der[off + 1];
        var r := Value(der[4..off], 256);
        var s := Value(der[off + 2..if end < |der| then end else |der|], 256);
        FromIntegers(r, s)
  }

  function FromIntegers(r: nat, s: nat): Option<bytes> {
    if r >= Pow(256, 32) || s >= Pow(256, 32) then None
    else Some(BigEndian(r, 32) + BigEndian(s, 32))
  }

  // --- integers as DER wants them -----------------------------------------------------

  /** No byte that the sign does not need. */
  predicate MinimalInteger(x: bytes) {
    && x != []
    && x[0] < 0x80
    && (|x| > 1 && x[0] == 0 ==> x[1] >= 0x80)
  }

  /** Stripping depends on the number alone. */
  lemma StrippedIsMinimal(v: bytes)
    requires |v| > 0
    ensures Value(Stripped(v), 256) == Value(v, 256)
    ensures var m := Minimal(Value(v, 256), 256); Stripped(v) == if m == [] then [0] else m
  {
    var k, m := SplitZeros(v);
    assert m == v[k..];
    assert Stripped(v) == if m == [] then [0] else m;
    hide *;
    ValueOfZeros(k, m, 256);
    if m == [] {
      ValueEmpty(256);
      ValueOfByte(0);
      MinimalOfZero(256);
    } else {
      ByteDigits(m);
      MinimalUnique(m, 256);
    }
  }

  lemma ByteDigits(s: bytes)
    ensures Digits(s, 256)
  {
  }

  lemma ValueOfByte(b: byte)
    ensures Value([b], 256) == b
  {
    assert [b] == [] + [b];
    ValueSnoc([], b, 256);
  }

  lemma ZeroInFront(s: bytes)
    ensures Value([0] + s, 256) == Value(s, 256)
  {
    assert Zeros(1) == [0];
    ValueOfZeros(1, s, 256);
  }

  lemma IntegerValue(v: bytes)
    requires |v| > 0
    ensures Value(Integer(v), 256) == Value(v, 256)
    ensures MinimalInteger(Integer(v))
  {
    hide Value, Minimal;
    StrippedIsMinimal(v);
    ZeroInFront(Stripped(v));
    MinimalDigits(Value(v, 256), 256);
  }

  /** An integer without superfluous bytes is the one the encoder writes. */
  lemma MinimalIntegerUnique(x: bytes, v: bytes)
    requires |v| > 0
    requires MinimalInteger(x) && Value(x, 256) == Value(v, 256)
    ensures Integer(v) == x
  {
    hide Value, Minimal;
    StrippedIsMinimal(v);
    if x[0] != 0 {
      MinimalUnique(x, 256);
    } else if |x| == 1 {
      ValueOfByte(0);
      assert x == [0];
      ValueEmpty(256);
      MinimalUnique([], 256);
    } else {
      var t := x[1..];
      assert x == [0] + t;
      ZeroInFront(t);
      MinimalUnique(t, 256);
    }
  }

  // --- the laws -----------------------------------------------------------------------

  /** What the decoder makes of two tagged integers, whatever follows them. */
  lemma DecodeParts(der: bytes, a: bytes, b: bytes, rest: bytes)
    requires |a| < 256 && |b| < 256 && 2 <= |a| + |b| + |rest| < 252
    requires der == [0x30, 4 + |a| + |b| + |rest|] + Tagged(a) + Tagged(b) + rest
    ensures DerToSig64(der) == FromIntegers(Value(a, 256), Value(b, 256))
  {
    hide Value, FromIntegers;
    PartsAt(der, a, b, rest);
  }

  lemma PartsAt(der: bytes, a: bytes, b: bytes, rest: bytes)
    requires |a| < 256 && |b| < 256 && |a| + |b| + |rest| < 252
    requires der == [0x30, 4 + |a| + |b| + |rest|] + Tagged(a) + Tagged(b) + rest
    ensures |der| == 6 + |a| + |b| + |rest|
    ensures der[0] == 0x30 && der[1] == |der| - 2 && der[2] == 0x02 && der[3] == |a|
    ensures der[4..4 + |a|] == a
    ensures der[4 + |a|] == 0x02 && der[5 + |a|] == |b|
    ensures der[6 + |a|..6 + |a| + |b|] == b
  {
    var head: bytes := [0x30, 4 + |a| + |b| + |rest|];
    assert Tagged(a) == [0x02, |a|] + a && Tagged(b) == [0x02, |b|] + b;
    assert der == (head + [0x02, |a|]) + a + ([0x02, |b|] + b + rest);
    assert der == (head + [0x02, |a|] + a + [0x02, |b|]) + b + rest;
  }

  /** Decoding the encoding of any 64 bytes returns them. */
  lemma RoundTrip(sig: bytes)
    requires |sig| == 64
    ensures DerToSig64(Sig64ToDer(sig)) == Some(sig)
  {
    hide Value, BigEndian, Pow, DerToSig64, Integer;
    var r, s := sig[..32], sig[32..];
    IntegerValue(r);
    IntegerValue(s);
    BigEndianOfValue(r);
    BigEndianOfValue(s);
    var a, b := Integer(r), Integer(s);
    assert |a| <= 33 && |b| <= 33;
    var der := Sig64ToDer(sig);
    assert der == [0x30, 4 + |a| + |b| + 0] + Tagged(a) + Tagged(b) + [];
    DecodeParts(der, a, b, []);
    assert r + s == sig;
  }

  /** The two integers use the whole input and neither has a superfluous byte. */
  predicate Strict(der: bytes) {
    && |der| >= 8
    && var off: nat := (der[3] as nat) + 4;
    && off + 1 < |der|
    && off + 2 + der[off + 1] == |der|
    && MinimalInteger(der[4..off])
    && MinimalInteger(der[off + 2..])
  }

  /** The decoder is looser than its description says: it ignores what follows the
      second integer, so two inputs give one signature. */
  lemma TrailingByteAccepted()
    ensures var der: bytes, plain: bytes := [0x30, 7, 2, 1, 1, 2, 1, 1, 9], [0x30, 6, 2, 1, 1, 2, 1, 1];
            DerToSig64(der).Some? && !Strict(der) && DerToSig64(der) == DerToSig64(plain)
  {
    hide DerToSig64, Value, BigEndian, MinimalInteger, Pow;
    var a: bytes, der: bytes, plain: bytes :=
      [1], [0x30, 7, 2, 1, 1, 2, 1, 1, 9], [0x30, 6, 2, 1, 1, 2, 1, 1];
    DecodeParts(der, a, a, [9]);
    DecodeParts(plain, a, a, []);
    ValueOfByte(1);
    OneFits();
  }

  lemma OneFits()
    ensures 1 < Pow(256, 32)
  {
    assert Pow(256, 31) > 0;
  }

  /** An accepted input is the encoding of what it decodes to exactly when it is
      strict. */
  lemma StrictExactly(der: bytes)
    requires DerToSig64(der).Some?
    ensures |DerToSig64(der).value| == 64
    ensures Sig64ToDer(DerToSig64(der).value) == der <==> Strict(der)
  {
    hide Value, BigEndian, Pow, Integer, MinimalInteger, DerToSig64;
    DecodedAs(der);
    var off: nat := (der[3] as nat) + 4;
    var end: nat := off + 2 + der[off + 1];
    var a, b := der[4..off], der[off + 2..if end < |der| then end else |der|];
    var sig := DerToSig64(der).value;
    var r, s := BigEndian(Value(a, 256), 32), BigEndian(Value(b, 256), 32);
    assert sig[..32] == r && sig[32..] == s;
    ValueOfBigEndian(Value(a, 256), 32);
    ValueOfBigEndian(Value(b, 256), 32);
    IntegerValue(r);
    IntegerValue(s);
    if Strict(der) {
      MinimalIntegerUnique(a, r);
      assert b == der[off + 2..];
      MinimalIntegerUnique(b, s);
      assert der == [0x30, |der| - 2] + Tagged(a) + Tagged(b);
    } else if Sig64ToDer(sig) == der {
      EncodingIsStrict(sig);
    }
  }

  lemma DecodedAs(der: bytes)
    requires DerToSig64(der).Some?
    ensures |der| >= 8 && der[0] == 0x30 && der[1] == |der| - 2 && der[2] == 0x02
    ensures var off: nat := (der[3] as nat) + 4;
            && off + 1 < |der| && der[off] == 0x02
            && var end: nat := off + 2 + der[off + 1];
            && var a, b := der[4..off], der[off + 2..if end < |der| then end else |der|];
            && Value(a, 256) < Pow(256, 32) && Value(b, 256) < Pow(256, 32)
            && DerToSig64(der).value == BigEndian(Value(a, 256), 32) + BigEndian(Value(b, 256), 32)
  {
    hide Value, BigEndian, Pow;
  }

  lemma EncodingIsStrict(sig: bytes)
    requires |sig| == 64
    ensures Strict(Sig64ToDer(sig))
  {
    hide Integer, MinimalInteger;
    var a, b := Integer(sig[..32]), Integer(sig[32..]);
    IntegerValue(sig[..32]);
    IntegerValue(sig[32..]);
    var der := Sig64ToDer(sig);
    assert der[3] == |a| && der[4..4 + |a|] == a;
    assert der[4 + |a| + 1] == |b| && der[4 + |a| + 2..] == b;
  }
}
