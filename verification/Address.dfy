// Witness addresses: a prefix, a version, the program in 5-bit symbols and six
// symbols of checksum.
module Address {
  import opened Wrappers
  import opened Bytes
  import opened Regroup
  import Polymod

  const CHARSET: string := "qpzry9x8gf2tvdw0s3jn54khce6mua7l"

  // --- symbols and characters ------------------------------------------------------

  /** The symbol a character stands for; 32 for a character of no symbol. */
  function SymbolOf(c: char): nat {
    match c
    case 'q' => 0
    case 'p' => 1
    case 'z' => 2
    case 'r' => 3
    case 'y' => 4
    case '9' => 5
    case 'x' => 6
    case '8' => 7
    case 'g' => 8
    case 'f' => 9
    case '2' => 10
    case 't' => 11
    case 'v' => 12
    case 'd' => 13
    case 'w' => 14
    case '0' => 15
    case 's' => 16
    case '3' => 17
    case 'j' => 18
    case 'n' => 19
    case '5' => 20
    case '4' => 21
    case 'k' => 22
    case 'h' => 23
    case 'c' => 24
    case 'e' => 25
    case '6' => 26
    case 'm' => 27
    case 'u' => 28
    case 'a' => 29
    case '7' => 30
    case 'l' => 31
    case _ => 32
  }

  function Written(d: seq<nat>): (text: string)
    requires Digits(d, 32)
    ensures |text| == |d|
  {
    seq(|d|, i requires 0 <= i < |d| => CHARSET[d[i]])
  }

  function Decoded(text: string): (d: seq<nat>)
    ensures |d| == |text|
  {
    seq(|text|, i requires 0 <= i < |text| => SymbolOf(text[i]))
  }

  // The alphabet has no character twice.
  lemma SymbolOfCharacter(d: nat)
    requires d < 32
    ensures SymbolOf(CHARSET[d]) == d
  {
    if d < 16 {
      if d < 8 {
      } else {
      }
    } else {
      if d < 24 {
      } else {
      }
    }
  }

  lemma WrittenDecodes(d: seq<nat>)
    requires Digits(d, 32)
    ensures Decoded(Written(d)) == d
  {
    hide SymbolOf;
    forall i | 0 <= i < |d| ensures Decoded(Written(d))[i] == d[i] {
      SymbolOfCharacter(d[i]);
    }
  }

  // --- what verifying an address computes ------------------------------------------

  function High(c: char): bv32 {
    (c as int as bv32) >> 5
  }

  function Low(c: char): bv32 {
    (c as int as bv32) & 31
  }

  function SymbolBits(d: nat): bv32
    requires d < 32
  {
    d as bv32
  }

  function Bits(d: seq<nat>): (s: seq<bv32>)
    requires Digits(d, 32)
    ensures |s| == |d|
  {
    seq(|d|, i requires 0 <= i < |d| => SymbolBits(d[i]))
  }

  function Expanded(hrp: string): seq<bv32> {
    seq(|hrp|, i requires 0 <= i < |hrp| => High(hrp[i]))
    + [0]
    + seq(|hrp|, i requires 0 <= i < |hrp| => Low(hrp[i]))
  }

  /** BIP173 asks for 1 with witness version 0, BIP350 for another constant. */
  function Target(witver: nat): bv32 {
    if witver > 0 then 0x2BC830A3 else 1
  }

  predicate Verifies(hrp: string, d: seq<nat>, witver: nat) {
    Digits(d, 32) && Polymod.Poly(1, Expanded(hrp) + Bits(d)) == Target(witver)
  }

  /** The text carries this version and program under a checksum that verifies. */
  predicate IsAddress(text: string, hrp: string, witver: nat, prog: bytes) {
    && |hrp| + 8 <= |text|
    && text[..|hrp| + 1] == hrp + "1"
    && var d := Decoded(text[|hrp| + 1..]);
       && d[0] == witver
       && Regrouped(prog, 8, 5, d[1..|d| - 6])
       && Verifies(hrp, d, witver)
  }

  // --- the encoder ------------------------------------------------------------------------

  // A version past the alphabet is an index error in the Python script.
  method Encode(hrp: string, witver: nat, prog: bytes) returns (text: Option<string>)
    ensures text.Some? <==> witver < 32
    ensures text.Some? ==> IsAddress(text.value, hrp, witver, prog)
  {
    if witver >= 32 {
      return None;
    }
    ByteDigits(prog);
    var groups := ConvertBits(prog, 8, 5, true);
    var data := [witver] + groups;
    DataDigits(witver, groups);
    var values := Expanded(hrp) + Bits(data);
    var state := Polymod.ComputePolymod(values + Polymod.Zeros(6));
    var sums := Polymod.Symbols(Polymod.Xor(state, Target(witver)));
    var checksum := Numbers(sums);
    SumsVerify(hrp, witver, data, sums);
    text := Some(hrp + "1" + Written(data + checksum));
    Assembled(text.value, hrp, witver, prog, groups, checksum);
  }

  function Numbers(s: seq<bv32>): (d: seq<nat>)
    ensures |d| == |s|
  {
    seq(|s|, i requires 0 <= i < |s| => s[i] as nat)
  }

  lemma ByteDigits(prog: bytes)
    ensures Digits(prog, Pow(2, 8))
    ensures Pow(2, 5) == 32
  {
    assert Pow(2, 4) == 16;
    assert Pow(2, 6) == 64;
  }

  lemma DataDigits(witver: nat, groups: seq<nat>)
    requires witver < 32 && Digits(groups, Pow(2, 5))
    ensures Digits([witver] + groups, 32)
  {
    ByteDigits([]);
  }

  lemma SymbolNumber(v: bv32)
    requires v < 32
    ensures (v as nat) < 32 && SymbolBits(v as nat) == v
  {
  }

  lemma NumberSymbol(d: nat)
    requires d < 32
    ensures Polymod.Fits(SymbolBits(d)) && SymbolBits(d) as nat == d
  {
  }

  lemma CharacterFits(c: char)
    ensures Polymod.Fits(High(c)) && Polymod.Fits(Low(c)) && Polymod.Fits(0)
  {
  }

  lemma BitsFit(d: seq<nat>)
    requires Digits(d, 32)
    ensures Polymod.AllFit(Bits(d))
  {
    hide Polymod.Fits;
    hide SymbolBits;
    forall i | 0 <= i < |d| ensures Polymod.Fits(Bits(d)[i]) {
      NumberSymbol(d[i]);
    }
  }

  lemma ExpandedFits(hrp: string)
    ensures Polymod.AllFit(Expanded(hrp))
  {
    hide Polymod.Fits, High, Low;
    CharacterFits('1');
    forall i | 0 <= i < |Expanded(hrp)| ensures Polymod.Fits(Expanded(hrp)[i]) {
      if i < |hrp| {
        CharacterFits(hrp[i]);
      } else if i > |hrp| {
        CharacterFits(hrp[i - |hrp| - 1]);
      }
    }
  }

  lemma AllFitAppend(a: seq<bv32>, b: seq<bv32>)
    requires Polymod.AllFit(a) && Polymod.AllFit(b)
    ensures Polymod.AllFit(a + b)
  {
    hide Polymod.Fits;
  }

  lemma SymbolsSmall(p: bv32)
    ensures forall i | 0 <= i < 6 :: Polymod.Symbols(p)[i] < 32
  {
  }

  lemma TargetFits(witver: nat)
    ensures Polymod.Fits(Target(witver))
  {
  }

  lemma NumbersBack(s: seq<bv32>)
    requires forall i | 0 <= i < |s| :: s[i] < 32
    ensures Digits(Numbers(s), 32) && Bits(Numbers(s)) == s
  {
    forall i | 0 <= i < |s| ensures Numbers(s)[i] < 32 && SymbolBits(Numbers(s)[i]) == s[i] {
      SymbolNumber(s[i]);
    }
  }

  lemma BitsAppend(a: seq<nat>, b: seq<nat>)
    requires Digits(a, 32) && Digits(b, 32)
    ensures Digits(a + b, 32) && Bits(a + b) == Bits(a) + Bits(b)
  {
    hide SymbolBits;
  }

  lemma SumsVerify(hrp: string, witver: nat, data: seq<nat>, sums: seq<bv32>)
    requires Digits(data, 32)
    requires sums == Polymod.Checksum(Expanded(hrp) + Bits(data), Target(witver))
    ensures Digits(Numbers(sums), 32) && Digits(data + Numbers(sums), 32)
    ensures Verifies(hrp, data + Numbers(sums), witver)
  {
    var values := Expanded(hrp) + Bits(data);
    hide Expanded, Bits, Numbers, Target, Polymod.Poly, Polymod.Symbols, Polymod.AllFit, Polymod.Fits;
    ExpandedFits(hrp);
    BitsFit(data);
    AllFitAppend(Expanded(hrp), Bits(data));
    TargetFits(witver);
    Polymod.ChecksumHolds(values, Target(witver));
    SymbolsSmall(Polymod.Xor(Polymod.Poly(1, values + Polymod.Zeros(6)), Target(witver)));
    NumbersBack(sums);
    BitsAppend(data, Numbers(sums));
    assert Expanded(hrp) + Bits(data + Numbers(sums)) == values + sums;
  }

  lemma Assembled(text: string, hrp: string, witver: nat, prog: bytes, groups: seq<nat>, checksum: seq<nat>)
    requires |checksum| == 6 && Digits([witver] + groups + checksum, 32)
    requires Regrouped(prog, 8, 5, groups) && Verifies(hrp, [witver] + groups + checksum, witver)
    requires text == hrp + "1" + Written([witver] + groups + checksum)
    ensures IsAddress(text, hrp, witver, prog)
  {
    hide Regrouped, Verifies;
    var d := [witver] + groups + checksum;
    assert text[..|hrp| + 1] == hrp + "1" && text[|hrp| + 1..] == Written(d);
    WrittenDecodes(d);
    assert d[1..|d| - 6] == groups;
  }

  // --- what the checksum and the regrouping give the reader of an address -------------------

  /** An address names its network, its version and its program: one text carries no
      two of them, whatever their lengths. */
  lemma AddressInjective(text: string, hrp: string, witver: nat, a: bytes, prefix: string, version: nat, b: bytes)
    requires IsAddress(text, hrp, witver, a) && IsAddress(text, prefix, version, b)
    ensures hrp == prefix && witver == version && a == b
  {
    SeparatorAt(text, hrp, witver, a);
    SeparatorAt(text, prefix, version, b);
    if |hrp| < |prefix| {
      NoSeparatorBehind(text, hrp, witver, a, |prefix|);
    } else if |prefix| < |hrp| {
      NoSeparatorBehind(text, prefix, version, b, |hrp|);
    }
    hide Value, Pow, Verifies, Decoded;
    ByteDigits(a);
    ByteDigits(b);
    var d := Decoded(text[|hrp| + 1..]);
    assert |a| == |b|;
    RegroupedInjective(a, b, 8, 5, d[1..|d| - 6]);
  }

  lemma SeparatorAt(text: string, hrp: string, witver: nat, prog: bytes)
    requires IsAddress(text, hrp, witver, prog)
    ensures text[|hrp|] == '1' && text[..|hrp|] == hrp
  {
    assert text[..|hrp| + 1][|hrp|] == '1' && text[..|hrp| + 1][..|hrp|] == hrp;
  }

  /** No symbol is written as '1', so the last '1' of an address is its separator. */
  lemma NoSeparatorBehind(text: string, hrp: string, witver: nat, prog: bytes, i: nat)
    requires IsAddress(text, hrp, witver, prog) && |hrp| < i < |text|
    ensures text[i] != '1'
  {
    hide Value, Pow, Polymod.Poly, Regrouped;
    var d := Decoded(text[|hrp| + 1..]);
    assert d[i - |hrp| - 1] == SymbolOf(text[i]) && d[i - |hrp| - 1] < 32;
  }

  /** No address stays valid with one symbol changed to another. */
  lemma OneWrongSymbol(hrp: string, before: seq<nat>, x: nat, y: nat, after: seq<nat>, witver: nat)
    requires Verifies(hrp, before + [x] + after, witver)
    requires x != y
    ensures !Verifies(hrp, before + [y] + after, witver)
  {
    var d, e := before + [x] + after, before + [y] + after;
    if Digits(e, 32) {
      SplitDigits(before, x, after);
      SplitDigits(before, y, after);
      hide SymbolBits, Bits, Expanded, Target, Polymod.Poly, Polymod.AllFit, Polymod.Fits;
      var p := Expanded(hrp) + Bits(before);
      assert Expanded(hrp) + Bits(d) == p + [SymbolBits(x)] + Bits(after);
      assert Expanded(hrp) + Bits(e) == p + [SymbolBits(y)] + Bits(after);
      ExpandedFits(hrp);
      BitsFit(before);
      BitsFit(after);
      AllFitAppend(Expanded(hrp), Bits(before));
      NumberSymbol(x);
      NumberSymbol(y);
      Polymod.OneErrorDetected(p, SymbolBits(x), SymbolBits(y), Bits(after));
    }
  }

  lemma SplitDigits(before: seq<nat>, x: nat, after: seq<nat>)
    requires Digits(before + [x] + after, 32)
    ensures Digits(before, 32) && x < 32 && Digits(after, 32)
    ensures Bits(before + [x] + after) == Bits(before) + [SymbolBits(x)] + Bits(after)
  {
    hide SymbolBits;
    var d := before + [x] + after;
    assert d[|before|] == x;
    assert forall k | 0 <= k < |before| :: before[k] == d[k];
    assert forall k | 0 <= k < |after| :: after[k] == d[|before| + 1 + k];
  }
}
