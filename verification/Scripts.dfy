// Output scripts and the question whether one of them pays a given public key.
module Scripts {
  import opened Wrappers
  import opened Bytes

  type hash20 = h: bytes | |h| == 20 witness seq(20, _ => 0)
  type hash32 = h: bytes | |h| == 32 witness seq(32, _ => 0)
  // A compressed public key: a sign byte and the x coordinate.
  type pubkey = p: bytes | |p| == 33 witness seq(33, _ => 0)

  /** The hashes and the BIP341 tweak, as unknown functions. */
  datatype Hashes = Hashes(hash160: bytes -> hash20, sha256: bytes -> hash32, tweak: pubkey -> Option<hash32>)

  // --- the standard forms ----------------------------------------------------------

  function P2pkh(h: hash20): bytes {
    [0x76, 0xa9, 0x14] + h + [0x88, 0xac]
  }

  function P2sh(h: hash20): bytes {
    [0xa9, 0x14] + h + [0x87]
  }

  function P2wpkh(h: hash20): bytes {
    [0x00, 0x14] + h
  }

  function P2wsh(h: hash32): bytes {
    [0x00, 0x20] + h
  }

  function P2tr(h: hash32): bytes {
    [0x51, 0x20] + h
  }

  datatype ScriptType = Pkh | Sh | WitnessPkh | WitnessSh | Taproot | Other

  function TypeOf(s: bytes): ScriptType {
    if |s| == 25 && s[..3] == [0x76, 0xa9, 0x14] && s[23..] == [0x88, 0xac] then Pkh
    else if |s| == 23 && s[..2] == [0xa9, 0x14] && s[22] == 0x87 then Sh
    else if |s| == 22 && s[..2] == [0x00, 0x14] then WitnessPkh
    else if |s| == 34 && s[..2] == [0x00, 0x20] then WitnessSh
    else if |s| == 34 && s[..2] == [0x51, 0x20] then Taproot
    else Other
  }

  lemma TypesOfForms(h: hash20, g: hash32)
    ensures TypeOf(P2pkh(h)) == Pkh
    ensures TypeOf(P2sh(h)) == Sh
    ensures TypeOf(P2wpkh(h)) == WitnessPkh
    ensures TypeOf(P2wsh(g)) == WitnessSh
    ensures TypeOf(P2tr(g)) == Taproot
  {
  }

  lemma FormsInjective(a: hash20, b: hash20, c: hash32, d: hash32)
    ensures P2pkh(a) == P2pkh(b) ==> a == b
    ensures P2sh(a) == P2sh(b) ==> a == b
    ensures P2wpkh(a) == P2wpkh(b) ==> a == b
    ensures P2wsh(c) == P2wsh(d) ==> c == d
    ensures P2tr(c) == P2tr(d) ==> c == d
  {
    assert P2pkh(a)[3..23] == a && P2pkh(b)[3..23] == b;
    assert P2sh(a)[2..22] == a && P2sh(b)[2..22] == b;
    assert P2wpkh(a)[2..] == a && P2wpkh(b)[2..] == b;
    assert P2wsh(c)[2..] == c && P2wsh(d)[2..] == d;
    assert P2tr(c)[2..] == c && P2tr(d)[2..] == d;
  }

  // --- a key named by a script -------------------------------------------------------

  predicate OccursAt(haystack: bytes, needle: bytes, i: nat) {
    i + |needle| <= |haystack| && haystack[i..i + |needle|] == needle
  }

  ghost predicate Names(script: bytes, key: bytes) {
    key != [] && exists i: nat :: OccursAt(script, key, i)
  }

  method ContainsBytes(haystack: bytes, needle: bytes) returns (found: bool)
    ensures found == Names(haystack, needle)
  {
    if needle == [] || |haystack| < |needle| {
      return false;
    }
    var i := 0;
    while i + |needle| <= |haystack|
      invariant forall j: nat | j < i :: !OccursAt(haystack, needle, j)
    {
      if haystack[i..i + |needle|] == needle {
        assert OccursAt(haystack, needle, i);
        return true;
      }
      i := i + 1;
    }
    return false;
  }

  // --- the verdict ---------------------------------------------------------------------

  datatype Ownership = ThirdParty | Claimed | Verified | Unverifiable | Mismatch

  /** An empty field counts as an absent one. */
  function Field(value: Option<bytes>): Option<bytes> {
    if value == Some([]) then None else value
  }

  function KeyProgram(c: Hashes, pub: pubkey): bytes {
    P2wpkh(c.hash160(pub))
  }

  function ScriptProgram(c: Hashes, script: bytes): bytes {
    P2wsh(c.sha256(script))
  }

  ghost function IfNames(script: bytes, pub: pubkey): Ownership {
    if Names(script, pub) then Verified else Mismatch
  }

  function IfEqual(a: bytes, b: bytes): Ownership {
    if a == b then Verified else Mismatch
  }

  /** What `spk` is to a key derived for it, given the scripts the file supplies. */
  ghost function OwnershipForScript(c: Hashes, pub: pubkey, spk: bytes, redeem: Option<bytes>,
                                    witnessScript: Option<bytes>, hasTree: bool): (o: Ownership)
    ensures o in {Verified, Unverifiable, Mismatch}
  {
    match TypeOf(spk)
    case Pkh => IfEqual(P2pkh(c.hash160(pub)), spk)
    case WitnessPkh => IfEqual(KeyProgram(c, pub), spk)
    case Taproot =>
      if c.tweak(pub).Some? && P2tr(c.tweak(pub).value) == spk then Verified
      else if hasTree then Unverifiable
      else Mismatch
    case WitnessSh =>
      if witnessScript == None then Unverifiable
      else if ScriptProgram(c, witnessScript.value) != spk then Mismatch
      else IfNames(witnessScript.value, pub)
    case Sh =>
      if redeem == None then
        if P2sh(c.hash160(KeyProgram(c, pub))) == spk then Verified else Unverifiable
      else if P2sh(c.hash160(redeem.value)) != spk then Mismatch
      else if redeem.value == KeyProgram(c, pub) then Verified
      else if TypeOf(redeem.value) == WitnessSh then
        if witnessScript == None then Unverifiable
        else if ScriptProgram(c, witnessScript.value) != redeem.value then Mismatch
        else IfNames(witnessScript.value, pub)
      else IfNames(redeem.value, pub)
    case Other => Unverifiable
  }

  method JudgeScript(c: Hashes, pub: pubkey, spk: bytes, redeem: Option<bytes>,
                     witnessScript: Option<bytes>, hasTree: bool) returns (o: Ownership)
    ensures o == OwnershipForScript(c, pub, spk, redeem, witnessScript, hasTree)
  {
    var named;
    match TypeOf(spk) {
      case Pkh =>
        return IfEqual(P2pkh(c.hash160(pub)), spk);
      case WitnessPkh =>
        return IfEqual(KeyProgram(c, pub), spk);
      case Taproot =>
        if c.tweak(pub).Some? && P2tr(c.tweak(pub).value) == spk {
          return Verified;
        }
        return if hasTree then Unverifiable else Mismatch;
      case WitnessSh =>
        if witnessScript == None {
          return Unverifiable;
        }
        if ScriptProgram(c, witnessScript.value) != spk {
          return Mismatch;
        }
        named := ContainsBytes(witnessScript.value, pub);
      case Sh =>
        if redeem == None {
          return if P2sh(c.hash160(KeyProgram(c, pub))) == spk then Verified else Unverifiable;
        }
        if P2sh(c.hash160(redeem.value)) != spk {
          return Mismatch;
        }
        if redeem.value == KeyProgram(c, pub) {
          return Verified;
        }
        if TypeOf(redeem.value) == WitnessSh {
          if witnessScript == None {
            return Unverifiable;
          }
          if ScriptProgram(c, witnessScript.value) != redeem.value {
            return Mismatch;
          }
          named := ContainsBytes(witnessScript.value, pub);
        } else {
          named := ContainsBytes(redeem.value, pub);
        }
      case Other =>
        return Unverifiable;
    }
    return if named then Verified else Mismatch;
  }

  // --- what Verified means ---------------------------------------------------------------

  /** The script can be satisfied with `pub` alone: BIP44, BIP84, BIP86 and BIP49. */
  predicate PaysKey(c: Hashes, pub: pubkey, spk: bytes) {
    || spk == P2pkh(c.hash160(pub))
    || spk == KeyProgram(c, pub)
    || (c.tweak(pub).Some? && spk == P2tr(c.tweak(pub).value))
    || spk == P2sh(c.hash160(KeyProgram(c, pub)))
  }

  /** The script commits to another script: BIP141, BIP16, and one in the other. */
  predicate PaysScript(c: Hashes, script: bytes, spk: bytes) {
    || spk == ScriptProgram(c, script)
    || spk == P2sh(c.hash160(script))
    || spk == P2sh(c.hash160(ScriptProgram(c, script)))
  }

  /** The script is the key's own, or commits to a supplied script that names the key. */
  ghost predicate CommitsTo(c: Hashes, pub: pubkey, spk: bytes, redeem: Option<bytes>,
                            witnessScript: Option<bytes>) {
    || PaysKey(c, pub, spk)
    || (redeem.Some? && Names(redeem.value, pub) && PaysScript(c, redeem.value, spk))
    || (witnessScript.Some? && Names(witnessScript.value, pub) && PaysScript(c, witnessScript.value, spk))
  }

  /** Verified is a proof: the script really commits to the derived key. */
  lemma VerifiedCommits(c: Hashes, pub: pubkey, spk: bytes, redeem: Option<bytes>,
                        witnessScript: Option<bytes>, hasTree: bool)
    requires OwnershipForScript(c, pub, spk, redeem, witnessScript, hasTree) == Verified
    ensures CommitsTo(c, pub, spk, redeem, witnessScript)
  {
    hide Names, P2pkh, P2sh, P2wpkh, P2wsh, P2tr;
    hide TypeOf;
  }

  /** The scripts the file supplies are the ones the output commits to. */
  predicate Supplied(c: Hashes, pub: pubkey, spk: bytes, redeem: Option<bytes>, witnessScript: Option<bytes>) {
    match TypeOf(spk)
    case WitnessSh => witnessScript.Some? && spk == ScriptProgram(c, witnessScript.value)
    case Sh =>
      if redeem == None then PaysKey(c, pub, spk)
      else
        && spk == P2sh(c.hash160(redeem.value))
        && (TypeOf(redeem.value) == WitnessSh ==>
              witnessScript.Some? && redeem.value == ScriptProgram(c, witnessScript.value))
    case _ => true
  }

  /** The redeem script names the key, or the witness script it stands for does. */
  ghost predicate NamedInRedeem(redeem: Option<bytes>, witnessScript: Option<bytes>, pub: pubkey)
    requires redeem.Some?
  {
    if TypeOf(redeem.value) == WitnessSh then witnessScript.Some? && Names(witnessScript.value, pub)
    else Names(redeem.value, pub)
  }

  /** Two different inputs with one hash. */
  predicate Collide(c: Hashes, a: bytes, b: bytes) {
    a != b && c.hash160(a) == c.hash160(b)
  }

  /** Two keys with different x coordinates and one tweaked key. */
  predicate TweaksCollide(c: Hashes, p: pubkey, q: pubkey) {
    p[1..] != q[1..] && c.tweak(p).Some? && c.tweak(p) == c.tweak(q)
  }

  /** The verdict is exact in both directions, on every input but one whose redeem
      script and key program collide: Verified says that the script is of a known form,
      that the scripts it commits to are there, and that it pays the key or commits to
      a script that names the key. */
  lemma VerifiedExactly(c: Hashes, pub: pubkey, spk: bytes, redeem: Option<bytes>,
                        witnessScript: Option<bytes>, hasTree: bool)
    requires redeem.Some? ==> !Collide(c, redeem.value, KeyProgram(c, pub))
    ensures OwnershipForScript(c, pub, spk, redeem, witnessScript, hasTree) == Verified <==>
      TypeOf(spk) != Other && Supplied(c, pub, spk, redeem, witnessScript)
      && (|| PaysKey(c, pub, spk)
          || (TypeOf(spk) == WitnessSh && Names(witnessScript.value, pub))
          || (TypeOf(spk) == Sh && redeem.Some? && NamedInRedeem(redeem, witnessScript, pub)))
  {
    var h := c.hash160(pub);
    var wp := KeyProgram(c, pub);
    var t := match c.tweak(pub) case Some(x) => x case None => seq(32, _ => 0);
    TypesOfForms(h, t);
    TypesOfForms(c.hash160(wp), t);
    if redeem.Some? {
      FormsInjective(c.hash160(redeem.value), c.hash160(wp), t, t);
    }
    hide Names, P2pkh, P2sh, P2wpkh, P2wsh, P2tr;
    hide TypeOf;
  }

  /** Where redeem script and key program do collide, a script that pays the key is
      still turned down when the redeem script does not name it. */
  lemma CollisionMisjudged(c: Hashes, pub: pubkey, redeem: bytes, witnessScript: Option<bytes>, hasTree: bool)
    requires Collide(c, redeem, KeyProgram(c, pub)) && TypeOf(redeem) != WitnessSh && !Names(redeem, pub)
    ensures var spk := P2sh(c.hash160(redeem));
            && PaysKey(c, pub, spk)
            && OwnershipForScript(c, pub, spk, Some(redeem), witnessScript, hasTree) == Mismatch
  {
    TypesOfForms(c.hash160(redeem), seq(32, _ => 0));
    hide Names, P2pkh, P2sh, P2wpkh, P2wsh, P2tr;
    hide TypeOf;
  }

  /** An output of a single-key form belongs to one key, up to the sign a taproot key
      does not keep; two keys that share one are a collision in hand. */
  lemma SingleKeyUnique(c: Hashes, p: pubkey, q: pubkey, spk: bytes)
    requires PaysKey(c, p, spk) && PaysKey(c, q, spk)
    ensures match TypeOf(spk)
            case Taproot => p[1..] == q[1..] || TweaksCollide(c, p, q)
            case Sh => p == q || Collide(c, p, q) || Collide(c, KeyProgram(c, p), KeyProgram(c, q))
            case _ => p == q || Collide(c, p, q)
  {
    hide Names;
    KeyFormOf(c, p, spk);
    KeyFormOf(c, q, spk);
    hide P2pkh, P2sh, P2wpkh, P2wsh, P2tr, TypeOf, PaysKey;
    var zero: hash32 := seq(32, _ => 0);
    FormsInjective(c.hash160(p), c.hash160(q), zero, zero);
    if c.tweak(p).Some? && c.tweak(q).Some? {
      FormsInjective(c.hash160(p), c.hash160(q), c.tweak(p).value, c.tweak(q).value);
    }
    FormsInjective(c.hash160(KeyProgram(c, p)), c.hash160(KeyProgram(c, q)), zero, zero);
  }

  lemma KeyFormOf(c: Hashes, p: pubkey, spk: bytes)
    requires PaysKey(c, p, spk)
    ensures match TypeOf(spk)
            case Pkh => spk == P2pkh(c.hash160(p))
            case WitnessPkh => spk == KeyProgram(c, p)
            case Taproot => c.tweak(p).Some? && spk == P2tr(c.tweak(p).value)
            case Sh => spk == P2sh(c.hash160(KeyProgram(c, p)))
            case _ => false
  {
    var t := match c.tweak(p) case Some(x) => x case None => seq(32, _ => 0);
    TypesOfForms(c.hash160(p), t);
    TypesOfForms(c.hash160(KeyProgram(c, p)), t);
    hide P2pkh, P2sh, P2wpkh, P2wsh, P2tr;
    hide TypeOf;
  }
}
