// The size estimate the fee rate is computed from, against the size of the
// transaction that signing produces.
module Vsize {
  import opened Sequences
  import opened Bytes
  import opened Scripts
  import opened Wire

  const DER_SIG_LEN := 72
  const PUBKEY_LEN := 33

  // --- the estimator ------------------------------------------------------------------

  function PushOverhead(n: nat): nat {
    if n < 76 then 1 else if n < 256 then 2 else 3
  }

  function VarIntLen(n: nat): nat {
    if n < 0xfd then 1 else if n <= 0xffff then 3 else if n <= 0xffff_ffff then 5 else 9
  }

  /** The m of a script that opens with OP_m. */
  function MultisigM(script: bytes): nat {
    if script != [] && 0x51 <= script[0] <= 0x60 then script[0] - 0x50 else 0
  }

  function MultisigWitness(script: bytes): nat {
    var sigs := if MultisigM(script) > 0 then MultisigM(script) else 1;
    VarIntLen(sigs + 2) + 1 + sigs * (1 + DER_SIG_LEN) + PushOverhead(|script|) + |script|
  }

  /** What the file shows of an input: the script it spends, the script a signer
      needs, and the script the signature covers. */
  datatype View = View(spk: bytes, signingScript: bytes, scriptCode: bytes)

  datatype Cost = Cost(segwit: bool, scriptSig: nat, witnessSize: nat)

  function ScriptWitness(v: View): nat {
    if v.scriptCode == [] then 1 + 1 + (1 + DER_SIG_LEN) + 1 + 34 else MultisigWitness(v.scriptCode)
  }

  const KEY_WITNESS := 1 + (1 + DER_SIG_LEN) + (1 + PUBKEY_LEN)

  function CostOf(v: View): Cost {
    match TypeOf(v.spk)
    case WitnessPkh => Cost(true, 0, KEY_WITNESS)
    case Taproot => Cost(true, 0, 1 + 1 + 65)
    case WitnessSh => Cost(true, 0, ScriptWitness(v))
    case Sh =>
      if TypeOf(v.signingScript) == WitnessPkh then Cost(true, 1 + |v.signingScript|, KEY_WITNESS)
      else if TypeOf(v.signingScript) == WitnessSh then Cost(true, 1 + |v.signingScript|, ScriptWitness(v))
      else
        var sigs := if MultisigM(v.signingScript) > 0 then MultisigM(v.signingScript) else 1;
        Cost(false, 1 + sigs * (1 + DER_SIG_LEN) + PushOverhead(|v.signingScript|) + |v.signingScript|, 0)
    case Pkh => Cost(false, (1 + DER_SIG_LEN) + (1 + PUBKEY_LEN), 0)
    case Other => Cost(true, 0, KEY_WITNESS)
  }

  function Costs(views: seq<View>): Cost {
    if views == [] then Cost(false, 0, 0)
    else
      var c, d := Costs(views[..|views| - 1]), CostOf(views[|views| - 1]);
      Cost(c.segwit || d.segwit, c.scriptSig + d.scriptSig, c.witnessSize + d.witnessSize)
  }

  function EstimatedWeight(base: nat, views: seq<View>): nat {
    var c := Costs(views);
    base * 4 + c.scriptSig * 4 + if c.segwit then 2 + c.witnessSize else 0
  }

  function Quarter(weight: nat): nat {
    (weight + 3) / 4
  }

  method EstimateVsize(baseSize: nat, views: seq<View>) returns (vsize: nat)
    ensures vsize == if baseSize == 0 then 0 else Quarter(EstimatedWeight(baseSize, views))
  {
    hide CostOf;
    if baseSize == 0 {
      return 0;
    }
    var extraScriptSig: nat, witnessBytes: nat, anySegwit := 0, 0, false;
    assert views[..0] == [];
    for i := 0 to |views|
      invariant Costs(views[..i]) == Cost(anySegwit, extraScriptSig, witnessBytes)
    {
      assert views[..i + 1][..i] == views[..i];
      var segwit, scriptSig, witnessSize := InputCost(views[i]);
      anySegwit := anySegwit || segwit;
      extraScriptSig := extraScriptSig + scriptSig;
      witnessBytes := witnessBytes + witnessSize;
    }
    assert views[..|views|] == views;
    var weight := baseSize * 4 + extraScriptSig * 4 + if anySegwit then 2 + witnessBytes else 0;
    return (weight + 3) / 4;
  }

  method InputCost(v: View) returns (segwit: bool, scriptSig: nat, witnessSize: nat)
    ensures CostOf(v) == Cost(segwit, scriptSig, witnessSize)
  {
    segwit, scriptSig, witnessSize := false, 0, 0;
    match TypeOf(v.spk) {
      case WitnessPkh =>
        segwit, witnessSize := true, KEY_WITNESS;
      case Taproot =>
        segwit, witnessSize := true, 1 + 1 + 65;
      case WitnessSh =>
        segwit, witnessSize := true, ScriptWitness(v);
      case Sh =>
        if TypeOf(v.signingScript) == WitnessPkh {
          segwit, scriptSig, witnessSize := true, 1 + |v.signingScript|, KEY_WITNESS;
        } else if TypeOf(v.signingScript) == WitnessSh {
          segwit, scriptSig, witnessSize := true, 1 + |v.signingScript|, ScriptWitness(v);
        } else {
          var m := MultisigM(v.signingScript);
          var sigs := if m > 0 then m else 1;
          scriptSig := 1 + sigs * (1 + DER_SIG_LEN) + PushOverhead(|v.signingScript|) + |v.signingScript|;
        }
      case Pkh =>
        scriptSig := (1 + DER_SIG_LEN) + (1 + PUBKEY_LEN);
      case Other =>
        segwit, witnessSize := true, KEY_WITNESS;
    }
  }

  // --- the signed transaction -----------------------------------------------------------

  /** What signing puts into an input. */
  datatype Fill = Fill(scriptSig: bytes, stack: seq<bytes>)

  ghost predicate FillFits(f: Fill) {
    |f.scriptSig| < MAX64 && |f.stack| < MAX64 && forall w | w in f.stack :: |w| < MAX64
  }

  ghost predicate FillsFit(fills: seq<Fill>) {
    forall f | f in fills :: FillFits(f)
  }

  function SignedInBytes(i: TxIn, f: Fill): bytes
    requires FillFits(f)
  {
    i.prev + LittleEndian(i.vout, 4) + VarBytes(f.scriptSig) + LittleEndian(i.sequence, 4)
  }

  ghost function SignedInsBytes(s: seq<TxIn>, fills: seq<Fill>): bytes
    requires |fills| == |s| && FillsFit(fills)
  {
    if s == [] then [] else SignedInBytes(s[0], fills[0]) + SignedInsBytes(s[1..], fills[1..])
  }

  ghost function ItemsBytes(items: seq<bytes>): bytes
    requires forall w | w in items :: |w| < MAX64
  {
    if items == [] then [] else VarBytes(items[0]) + ItemsBytes(items[1..])
  }

  ghost function WitnessBytes(f: Fill): bytes
    requires FillFits(f)
  {
    VarInt(|f.stack|) + ItemsBytes(f.stack)
  }

  ghost function WitnessesBytes(fills: seq<Fill>): bytes
    requires FillsFit(fills)
  {
    if fills == [] then [] else WitnessBytes(fills[0]) + WitnessesBytes(fills[1..])
  }

  ghost predicate HasWitness(fills: seq<Fill>) {
    exists f :: f in fills && f.stack != []
  }

  /** The transaction without its witnesses. */
  ghost function StrippedBytes(tx: Tx, fills: seq<Fill>): bytes
    requires TxFits(tx) && |fills| == |tx.vin| && FillsFit(fills)
  {
    LittleEndian(tx.version, 4)
    + VarInt(|tx.vin|) + SignedInsBytes(tx.vin, fills)
    + VarInt(|tx.vout|) + OutsBytes(tx.vout)
    + LittleEndian(tx.locktime, 4)
  }

  /** The transaction as BIP144 sends it: a marker, a flag and the witnesses when
      there is one. */
  ghost function SignedBytes(tx: Tx, fills: seq<Fill>): bytes
    requires TxFits(tx) && |fills| == |tx.vin| && FillsFit(fills)
  {
    if !HasWitness(fills) then StrippedBytes(tx, fills)
    else
      LittleEndian(tx.version, 4) + [0x00, 0x01]
      + VarInt(|tx.vin|) + SignedInsBytes(tx.vin, fills)
      + VarInt(|tx.vout|) + OutsBytes(tx.vout)
      + WitnessesBytes(fills)
      + LittleEndian(tx.locktime, 4)
  }

  /** BIP141: three times the stripped size plus the whole. */
  ghost function Weight(tx: Tx, fills: seq<Fill>): nat
    requires TxFits(tx) && |fills| == |tx.vin| && FillsFit(fills)
  {
    3 * |StrippedBytes(tx, fills)| + |SignedBytes(tx, fills)|
  }

  // --- sizes --------------------------------------------------------------------------------

  lemma VarIntSize(n: u64)
    ensures |VarInt(n)| == VarIntLen(n)
  {
  }

  /** How much longer an input gets by its script signature. */
  ghost function Growth(f: Fill): nat {
    VarIntLen(|f.scriptSig|) - 1 + |f.scriptSig|
  }

  ghost function Growths(fills: seq<Fill>): nat {
    if fills == [] then 0 else Growth(fills[0]) + Growths(fills[1..])
  }

  ghost function WitnessSize(f: Fill): nat {
    VarIntLen(|f.stack|) + ItemSizes(f.stack)
  }

  ghost function ItemSizes(items: seq<bytes>): nat {
    if items == [] then 0 else VarIntLen(|items[0]|) + |items[0]| + ItemSizes(items[1..])
  }

  ghost function WitnessSizes(fills: seq<Fill>): nat {
    if fills == [] then 0 else WitnessSize(fills[0]) + WitnessSizes(fills[1..])
  }

  lemma {:induction false} SignedInsSize(s: seq<TxIn>, fills: seq<Fill>)
    requires |fills| == |s| && FillsFit(fills)
    ensures |SignedInsBytes(s, fills)| == |InsBytes(s)| + Growths(fills)
  {
    if s != [] {
      assert FillFits(fills[0]);
      VarIntSize(|fills[0].scriptSig|);
      VarIntSize(0);
      SignedInsSize(s[1..], fills[1..]);
    }
  }

  lemma {:induction false} ItemsSize(items: seq<bytes>)
    requires forall w | w in items :: |w| < MAX64
    ensures |ItemsBytes(items)| == ItemSizes(items)
  {
    if items != [] {
      VarIntSize(|items[0]|);
      ItemsSize(items[1..]);
    }
  }

  lemma {:induction false} WitnessesSize(fills: seq<Fill>)
    requires FillsFit(fills)
    ensures |WitnessesBytes(fills)| == WitnessSizes(fills)
  {
    if fills != [] {
      assert FillFits(fills[0]);
      VarIntSize(|fills[0].stack|);
      ItemsSize(fills[0].stack);
      WitnessesSize(fills[1..]);
    }
  }

  /** The weight of the signed transaction in terms of the unsigned one. */
  lemma WeightOfSigned(tx: Tx, fills: seq<Fill>)
    requires TxFits(tx) && |fills| == |tx.vin| && FillsFit(fills)
    ensures Weight(tx, fills) ==
      4 * (|TxBytes(tx)| + Growths(fills)) + if HasWitness(fills) then 2 + WitnessSizes(fills) else 0
  {
    hide VarInt, LittleEndian, InsBytes, OutsBytes, SignedInsBytes, WitnessesBytes, HasWitness, Growths, WitnessSizes;
    SignedInsSize(tx.vin, fills);
    WitnessesSize(fills);
  }

  // --- standard spends ------------------------------------------------------------------------

  /** A script that asks for m signatures by n compressed keys. */
  function MultisigScript(m: nat, keys: seq<pubkey>): bytes
    requires 1 <= m <= |keys| <= 16
  {
    [0x50 + m] + KeyPushes(keys) + [0x50 + |keys|, 0xae]
  }

  function KeyPushes(keys: seq<pubkey>): (s: bytes)
    ensures |s| == 34 * |keys|
  {
    if keys == [] then [] else [33] + keys[0] + KeyPushes(keys[1..])
  }

  datatype Spend =
    | KeyHash(sig: bytes, pub: pubkey)
    | WitnessKeyHash(sig: bytes, pub: pubkey)
    | TaprootKey(sig: bytes)
    | WitnessMultisig(m: nat, keys: seq<pubkey>, sigs: seq<bytes>)
    | NestedKeyHash(sig: bytes, pub: pubkey, program: bytes)
    | NestedMultisig(m: nat, keys: seq<pubkey>, sigs: seq<bytes>, program: bytes)
    | ScriptMultisig(m: nat, keys: seq<pubkey>, sigs: seq<bytes>)

  predicate EcdsaSized(sigs: seq<bytes>) {
    forall s | s in sigs :: |s| <= DER_SIG_LEN
  }

  /** The spend is of a standard form, with signatures of at most 72 bytes with
      their sighash byte, or 65 for a Schnorr signature, and the file shows the
      scripts that form needs. */
  predicate Standard(v: View, s: Spend) {
    match s
    case KeyHash(sig, _) => TypeOf(v.spk) == Pkh && |sig| <= DER_SIG_LEN
    case WitnessKeyHash(sig, _) => TypeOf(v.spk) == WitnessPkh && |sig| <= DER_SIG_LEN
    case TaprootKey(sig) => TypeOf(v.spk) == Taproot && |sig| <= 65
    case WitnessMultisig(m, keys, sigs) =>
      TypeOf(v.spk) == WitnessSh && Quorum(m, keys, sigs) && v.scriptCode == MultisigScript(m, keys)
    case NestedKeyHash(sig, _, program) =>
      TypeOf(v.spk) == Sh && TypeOf(program) == WitnessPkh && v.signingScript == program && |sig| <= DER_SIG_LEN
    case NestedMultisig(m, keys, sigs, program) =>
      TypeOf(v.spk) == Sh && TypeOf(program) == WitnessSh && v.signingScript == program
      && Quorum(m, keys, sigs) && v.scriptCode == MultisigScript(m, keys)
    case ScriptMultisig(m, keys, sigs) =>
      TypeOf(v.spk) == Sh && Quorum(m, keys, sigs) && v.signingScript == MultisigScript(m, keys)
  }

  predicate Quorum(m: nat, keys: seq<pubkey>, sigs: seq<bytes>) {
    1 <= m <= |keys| <= 16 && |sigs| == m && EcdsaSized(sigs)
  }

  /** A direct push. */
  function Push(b: bytes): bytes
    requires |b| < 76
  {
    [|b|] + b
  }

  /** A push of any standard script. */
  function PushData(b: bytes): (p: bytes)
    requires |b| < 0x1_0000
    ensures |p| == PushOverhead(|b|) + |b|
  {
    if |b| < 76 then Push(b)
    else if |b| < 256 then [0x4c, |b|] + b
    else [0x4d, |b| % 256, |b| / 256] + b
  }

  function Pushes(items: seq<bytes>): bytes
    requires EcdsaSized(items)
  {
    if items == [] then [] else Push(items[0]) + Pushes(items[1..])
  }

  function FillOf(v: View, s: Spend): Fill
    requires Standard(v, s)
  {
    match s
    case KeyHash(sig, pub) => Fill(Push(sig) + Push(pub), [])
    case WitnessKeyHash(sig, pub) => Fill([], [sig, pub])
    case TaprootKey(sig) => Fill([], [sig])
    case WitnessMultisig(m, keys, sigs) => Fill([], [[]] + sigs + [MultisigScript(m, keys)])
    case NestedKeyHash(sig, pub, program) => Fill(Push(program), [sig, pub])
    case NestedMultisig(m, keys, sigs, program) => Fill(Push(program), [[]] + sigs + [MultisigScript(m, keys)])
    case ScriptMultisig(m, keys, sigs) => Fill([0x00] + Pushes(sigs) + PushData(MultisigScript(m, keys)), [])
  }

  predicate IsLegacy(s: Spend) {
    s.KeyHash? || s.ScriptMultisig?
  }

  predicate FullSized(sigs: seq<bytes>) {
    forall s | s in sigs :: |s| == DER_SIG_LEN
  }

  lemma {:induction false} SignatureSizes(sigs: seq<bytes>, rest: seq<bytes>)
    requires EcdsaSized(sigs)
    ensures ItemSizes(sigs + rest) <= |sigs| * (1 + DER_SIG_LEN) + ItemSizes(rest)
    ensures FullSized(sigs) ==> ItemSizes(sigs + rest) == |sigs| * (1 + DER_SIG_LEN) + ItemSizes(rest)
  {
    if sigs == [] {
      assert sigs + rest == rest;
    } else {
      assert (sigs + rest)[0] == sigs[0] && (sigs + rest)[1..] == sigs[1..] + rest;
      SignatureSizes(sigs[1..], rest);
    }
  }

  lemma {:induction false} PushesSize(sigs: seq<bytes>)
    requires EcdsaSized(sigs)
    ensures |Pushes(sigs)| <= |sigs| * (1 + DER_SIG_LEN)
    ensures FullSized(sigs) ==> |Pushes(sigs)| == |sigs| * (1 + DER_SIG_LEN)
  {
    if sigs != [] {
      PushesSize(sigs[1..]);
    }
  }

  /** No standard script has a length at which a push costs less than a length
      prefix. */
  lemma ScriptPush(m: nat, keys: seq<pubkey>)
    requires 1 <= m <= |keys| <= 16
    ensures |MultisigScript(m, keys)| == 3 + 34 * |keys|
    ensures VarIntLen(|MultisigScript(m, keys)|) <= PushOverhead(|MultisigScript(m, keys)|)
    ensures MultisigM(MultisigScript(m, keys)) == m
    ensures TypeOf(MultisigScript(m, keys)) !in {WitnessPkh, WitnessSh}
  {
  }

  /** What is over in the estimate of a witness script: a push is counted where a length
      prefix will do. */
  function ScriptSlack(script: bytes): int {
    PushOverhead(|script|) - VarIntLen(|script|)
  }

  lemma QuorumSize(m: nat, keys: seq<pubkey>, sigs: seq<bytes>)
    requires Quorum(m, keys, sigs)
    ensures var script := MultisigScript(m, keys); var f := Fill([], [[]] + sigs + [script]);
            && WitnessSize(f) <= MultisigWitness(script) - ScriptSlack(script)
            && (FullSized(sigs) ==> WitnessSize(f) == MultisigWitness(script) - ScriptSlack(script))
  {
    var script := MultisigScript(m, keys);
    ScriptPush(m, keys);
    hide MultisigScript;
    SignatureSizes(sigs, [script]);
    var items := [[]] + sigs + [script];
    assert items[0] == [] && items[1..] == sigs + [script];
    assert ItemSizes([script]) == VarIntLen(|script|) + |script|;
  }

  lemma WitnessSizeOf(f: Fill, g: Fill)
    requires f.stack == g.stack
    ensures WitnessSize(f) == WitnessSize(g)
  {
  }

  lemma PairSize(a: bytes, b: bytes)
    ensures ItemSizes([a]) == VarIntLen(|a|) + |a|
    ensures ItemSizes([a, b]) == VarIntLen(|a|) + |a| + VarIntLen(|b|) + |b|
  {
    assert [a, b][1..] == [b] && [a][1..] == [] && [b][1..] == [];
    assert ItemSizes([]) == 0;
  }

  // --- one input --------------------------------------------------------------------------------

  /** A script signature of 253 bytes or more needs a longer length prefix than the one
      byte that was counted. */
  function LongPrefix(v: View): nat {
    VarIntLen(CostOf(v).scriptSig) - 1
  }

  function Slack(v: View): int {
    if TypeOf(v.spk) == WitnessSh || (TypeOf(v.spk) == Sh && TypeOf(v.signingScript) == WitnessSh) then
      ScriptSlack(v.scriptCode)
    else 0
  }

  /** The empty witness of a legacy input. */
  function EmptyWitness(v: View): nat {
    if CostOf(v).segwit then 0 else 1
  }

  /** Every signature is as long as it can be. */
  predicate Full(s: Spend) {
    match s
    case KeyHash(sig, _) => |sig| == DER_SIG_LEN
    case WitnessKeyHash(sig, _) => |sig| == DER_SIG_LEN
    case TaprootKey(sig) => |sig| == 65
    case NestedKeyHash(sig, _, _) => |sig| == DER_SIG_LEN
    case _ => FullSized(s.sigs)
  }

  /** One input never costs more than was estimated for it, but for a longer prefix of its
      script signature and for the empty witness of a legacy input. */
  lemma InputBound(v: View, s: Spend)
    requires Standard(v, s)
    ensures FillFits(FillOf(v, s))
    ensures Growth(FillOf(v, s)) <= CostOf(v).scriptSig + LongPrefix(v)
    ensures WitnessSize(FillOf(v, s)) <= CostOf(v).witnessSize - Slack(v) + EmptyWitness(v)
    ensures CostOf(v).segwit == !IsLegacy(s) && (FillOf(v, s).stack == [] <==> IsLegacy(s))
    ensures Full(s) ==> Growth(FillOf(v, s)) == CostOf(v).scriptSig + LongPrefix(v)
    ensures Full(s) ==> WitnessSize(FillOf(v, s)) == CostOf(v).witnessSize - Slack(v) + EmptyWitness(v)
  {
    hide ItemSizes;
    match s
    case KeyHash(sig, pub) => NoItems();
    case WitnessKeyHash(sig, pub) => PairSize(sig, pub);
    case TaprootKey(sig) => PairSize(sig, []);
    case WitnessMultisig(m, keys, sigs) =>
      QuorumFits(m, keys, sigs);
      QuorumSize(m, keys, sigs);
    case NestedKeyHash(sig, pub, _) => PairSize(sig, pub);
    case NestedMultisig(m, keys, sigs, program) =>
      QuorumFits(m, keys, sigs);
      QuorumSize(m, keys, sigs);
      WitnessSizeOf(FillOf(v, s), Fill([], [[]] + sigs + [MultisigScript(m, keys)]));
      ScriptPush(m, keys);
    case ScriptMultisig(m, keys, sigs) => ScriptInputBound(v, s);
  }

  lemma ScriptInputBound(v: View, s: Spend)
    requires Standard(v, s) && s.ScriptMultisig?
    ensures FillFits(FillOf(v, s)) && FillOf(v, s).stack == [] && !CostOf(v).segwit
    ensures Growth(FillOf(v, s)) <= CostOf(v).scriptSig + LongPrefix(v)
    ensures FullSized(s.sigs) ==> Growth(FillOf(v, s)) == CostOf(v).scriptSig + LongPrefix(v)
    ensures WitnessSize(FillOf(v, s)) == 1 && CostOf(v).witnessSize == 0 && Slack(v) == 0
  {
    var script := MultisigScript(s.m, s.keys);
    ScriptPush(s.m, s.keys);
    PushesSize(s.sigs);
    assert |FillOf(v, s).scriptSig| == 1 + |Pushes(s.sigs)| + PushOverhead(|script|) + |script|;
    assert CostOf(v).scriptSig == 1 + s.m * (1 + DER_SIG_LEN) + PushOverhead(|script|) + |script|;
    NoItems();
    hide MultisigScript, Pushes, PushData, ItemSizes, TypeOf, PushOverhead;
  }

  lemma NoItems()
    ensures ItemSizes([]) == 0
  {
  }

  lemma QuorumFits(m: nat, keys: seq<pubkey>, sigs: seq<bytes>)
    requires Quorum(m, keys, sigs)
    ensures forall w | w in [[]] + sigs + [MultisigScript(m, keys)] :: |w| < MAX64
    ensures MultisigScript(m, keys) != []
  {
    ScriptPush(m, keys);
  }

  // --- signatures of full length -------------------------------------------------------------------

  const FULL_SIG: bytes := seq(DER_SIG_LEN, _ => 0)

  function Fulls(sigs: seq<bytes>): (r: seq<bytes>)
    ensures |r| == |sigs| && FullSized(r)
  {
    seq(|sigs|, _ => FULL_SIG)
  }

  /** The same spend with signatures as long as they can be. */
  function Lengthened(s: Spend): (t: Spend)
    ensures Full(t) && IsLegacy(t) == IsLegacy(s)
  {
    match s
    case KeyHash(_, pub) => KeyHash(FULL_SIG, pub)
    case WitnessKeyHash(_, pub) => WitnessKeyHash(FULL_SIG, pub)
    case TaprootKey(_) => TaprootKey(seq(65, _ => 0))
    case WitnessMultisig(m, keys, sigs) => WitnessMultisig(m, keys, Fulls(sigs))
    case NestedKeyHash(_, pub, program) => NestedKeyHash(FULL_SIG, pub, program)
    case NestedMultisig(m, keys, sigs, program) => NestedMultisig(m, keys, Fulls(sigs), program)
    case ScriptMultisig(m, keys, sigs) => ScriptMultisig(m, keys, Fulls(sigs))
  }

  lemma LengthenedStandard(v: View, s: Spend)
    requires Standard(v, s)
    ensures Standard(v, Lengthened(s))
  {
    hide TypeOf, MultisigScript;
  }

  // --- the bound ----------------------------------------------------------------------------------

  predicate AllStandard(views: seq<View>, spends: seq<Spend>) {
    |spends| == |views| && forall i | 0 <= i < |views| :: Standard(views[i], spends[i])
  }

  predicate AllFull(spends: seq<Spend>) {
    forall s | s in spends :: Full(s)
  }

  function Fills(views: seq<View>, spends: seq<Spend>): (f: seq<Fill>)
    requires AllStandard(views, spends)
    ensures |f| == |views|
  {
    seq(|views|, i requires 0 <= i < |views| => FillOf(views[i], spends[i]))
  }

  /** What one input can weigh beyond its estimate, in a transaction with or without
      witnesses. */
  function Miss(v: View, segwit: bool): int {
    4 * LongPrefix(v) + if segwit then EmptyWitness(v) - Slack(v) else 0
  }

  function Misses(views: seq<View>, segwit: bool): int {
    if views == [] then 0 else Misses(views[..|views| - 1], segwit) + Miss(views[|views| - 1], segwit)
  }

  lemma {:induction false} GrowthsSnoc(fills: seq<Fill>, f: Fill)
    ensures Growths(fills + [f]) == Growths(fills) + Growth(f)
    ensures WitnessSizes(fills + [f]) == WitnessSizes(fills) + WitnessSize(f)
  {
    if fills == [] {
      assert fills + [f] == [f] && [f][1..] == [];
    } else {
      assert (fills + [f])[0] == fills[0] && (fills + [f])[1..] == fills[1..] + [f];
      hide Growth, WitnessSize;
      GrowthsSnoc(fills[1..], f);
    }
  }

  /** What script signatures and witnesses weigh together. */
  ghost function SignatureWeight(fills: seq<Fill>, segwit: bool): nat {
    4 * Growths(fills) + if segwit then WitnessSizes(fills) else 0
  }

  function SignatureEstimate(views: seq<View>, segwit: bool): nat {
    4 * Costs(views).scriptSig + if segwit then Costs(views).witnessSize else 0
  }

  lemma {:induction false} FillsBound(views: seq<View>, spends: seq<Spend>, segwit: bool)
    requires AllStandard(views, spends)
    ensures var fills := Fills(views, spends);
            && FillsFit(fills) && HasWitness(fills) == Costs(views).segwit
            && SignatureWeight(fills, segwit) <= SignatureEstimate(views, segwit) + Misses(views, segwit)
            && (AllFull(spends) ==>
                  SignatureWeight(fills, segwit) == SignatureEstimate(views, segwit) + Misses(views, segwit))
    decreases |views|
  {
    hide FillOf, CostOf, Growth, WitnessSize, Standard, IsLegacy, FillFits, LongPrefix, Slack, EmptyWitness, Full;
    if views == [] {
    } else {
      var vs, v := SplitLast(views);
      var ss, s := SplitLast(spends);
      assert AllStandard(vs, ss);
      FillsBound(vs, ss, segwit);
      assert Standard(views[|vs|], spends[|vs|]);
      InputBound(v, s);
      var fills := Fills(views, spends);
      assert fills == Fills(vs, ss) + [FillOf(v, s)];
      GrowthsSnoc(Fills(vs, ss), FillOf(v, s));
      assert forall f :: f in fills <==> f in Fills(vs, ss) || f == FillOf(v, s);
      assert AllFull(spends) <==> AllFull(ss) && Full(s) by {
        assert forall x :: x in spends <==> x in ss || x == s;
      }
    }
  }

  /** What a transaction of these inputs can weigh beyond the estimate. */
  function Excess(views: seq<View>): int {
    Misses(views, Costs(views).segwit)
  }

  /** Whatever the mix of inputs, and whatever their signatures, the weight passes the
      estimate by no more than the excess, which signatures of full length reach. */
  lemma WeightBound(tx: Tx, views: seq<View>, spends: seq<Spend>)
    requires TxFits(tx) && |views| == |tx.vin| && AllStandard(views, spends)
    ensures FillsFit(Fills(views, spends))
    ensures Weight(tx, Fills(views, spends)) <= EstimatedWeight(|TxBytes(tx)|, views) + Excess(views)
    ensures AllFull(spends) ==>
              Weight(tx, Fills(views, spends)) == EstimatedWeight(|TxBytes(tx)|, views) + Excess(views)
  {
    FillsBound(views, spends, Costs(views).segwit);
    WeightOfSigned(tx, Fills(views, spends));
    hide Weight, TxBytes, Growths, WitnessSizes, Costs, Fills, Misses, AllFull;
  }

  lemma {:induction false} NoMisses(views: seq<View>, spends: seq<Spend>)
    requires AllStandard(views, spends)
    requires (forall s | s in spends :: !IsLegacy(s)) || (forall s | s in spends :: s.KeyHash?)
    ensures (forall s | s in spends :: !IsLegacy(s)) ==> Misses(views, true) <= 0
    ensures (forall s | s in spends :: s.KeyHash?) ==> !Costs(views).segwit
    ensures Misses(views, false) == 0
    decreases |views|
  {
    hide CostOf, Standard, Slack, LongPrefix, EmptyWitness;
    if views != [] {
      var vs, v := SplitLast(views);
      var ss, s := SplitLast(spends);
      assert AllStandard(vs, ss);
      assert forall x :: x in ss ==> x in spends;
      assert s in spends && Standard(views[|vs|], spends[|vs|]);
      NoMisses(vs, ss);
      NoMiss(v, s);
    }
  }

  lemma NoMiss(v: View, s: Spend)
    requires Standard(v, s) && !s.ScriptMultisig?
    ensures LongPrefix(v) == 0 && Slack(v) >= 0 && CostOf(v).segwit == !s.KeyHash?
    ensures !IsLegacy(s) ==> EmptyWitness(v) == 0
  {
    if s.WitnessMultisig? || s.NestedMultisig? {
      ScriptPush(s.m, s.keys);
    }
    hide MultisigScript;
  }

  /** With only segregated inputs, or only p2pkh inputs, the estimate is never below the
      virtual size of the signed transaction. */
  lemma EstimateIsUpperBound(tx: Tx, views: seq<View>, spends: seq<Spend>)
    requires TxFits(tx) && |views| == |tx.vin| && AllStandard(views, spends)
    requires (forall s | s in spends :: !IsLegacy(s)) || (forall s | s in spends :: s.KeyHash?)
    ensures FillsFit(Fills(views, spends))
    ensures Quarter(Weight(tx, Fills(views, spends))) <= Quarter(EstimatedWeight(|TxBytes(tx)|, views))
  {
    WeightBound(tx, views, spends);
    NoMisses(views, spends);
    hide Weight, EstimatedWeight, TxBytes, Costs, Fills, Misses;
  }

  // --- where the bound fails --------------------------------------------------------------------------

  /** The signed transaction is no larger than estimated. */
  ghost predicate Within(tx: Tx, views: seq<View>, spends: seq<Spend>)
    requires TxFits(tx) && |views| == |tx.vin| && AllStandard(views, spends)
  {
    FillsFit(Fills(views, spends))
    && Quarter(Weight(tx, Fills(views, spends))) <= Quarter(EstimatedWeight(|TxBytes(tx)|, views))
  }

  ghost predicate Signable(views: seq<View>) {
    exists spends :: AllStandard(views, spends)
  }

  function Lengthenings(spends: seq<Spend>): (r: seq<Spend>)
    ensures |r| == |spends| && AllFull(r)
  {
    seq(|spends|, i requires 0 <= i < |spends| => Lengthened(spends[i]))
  }

  lemma LengtheningsStandard(views: seq<View>, spends: seq<Spend>)
    requires AllStandard(views, spends)
    ensures AllStandard(views, Lengthenings(spends))
  {
    hide Standard;
    forall i | 0 <= i < |views| ensures Standard(views[i], Lengthenings(spends)[i]) {
      LengthenedStandard(views[i], spends[i]);
    }
  }

  /** What the file shows of the inputs decides, before anything is signed: every way of
      signing them in a standard form stays within the estimate exactly when the excess
      goes into the rounding. */
  lemma MixedExactly(tx: Tx, views: seq<View>)
    requires TxFits(tx) && |views| == |tx.vin| && Signable(views)
    ensures (forall spends | AllStandard(views, spends) :: Within(tx, views, spends))
       <==> Excess(views) <= 3 - (EstimatedWeight(|TxBytes(tx)|, views) + 3) % 4
  {
    hide AllStandard, Weight, EstimatedWeight, TxBytes, Fills, Excess, Quarter, FillsFit;
    var w := EstimatedWeight(|TxBytes(tx)|, views);
    forall spends | AllStandard(views, spends)
      ensures Excess(views) <= 3 - (w + 3) % 4 ==> Within(tx, views, spends)
    {
      WeightBound(tx, views, spends);
      QuarterRoom(w, Weight(tx, Fills(views, spends)), Excess(views));
    }
    var some :| AllStandard(views, some);
    var full := Lengthenings(some);
    LengtheningsStandard(views, some);
    WeightBound(tx, views, full);
    QuarterRoom(w, Weight(tx, Fills(views, full)), Excess(views));
  }

  lemma QuarterRoom(w: nat, x: nat, k: int)
    requires x <= w + k
    ensures k <= 3 - (w + 3) % 4 ==> Quarter(x) <= Quarter(w)
    ensures x == w + k ==> (Quarter(x) <= Quarter(w) <==> k <= 3 - (w + 3) % 4)
  {
  }

  lemma CostsSnoc(views: seq<View>, v: View)
    ensures var c, d := Costs(views), CostOf(v);
            Costs(views + [v]) == Cost(c.segwit || d.segwit, c.scriptSig + d.scriptSig, c.witnessSize + d.witnessSize)
    ensures forall b :: Misses(views + [v], b) == Misses(views, b) + Miss(v, b)
  {
    hide CostOf, Miss;
    assert (views + [v])[..|views|] == views;
  }

  lemma NothingCounted()
    ensures Costs([]) == Cost(false, 0, 0) && Misses([], true) == 0 && Misses([], false) == 0
  {
  }

  lemma FourInputs(w: View, v: View)
    requires CostOf(w) == Cost(true, 0, 108) && CostOf(v) == Cost(false, 107, 0) && Slack(w) == Slack(v) == 0
    ensures Costs([w, v, v, v]) == Cost(true, 321, 108) && Excess([w, v, v, v]) == 3
  {
    NothingCounted();
    assert Miss(w, true) == 0 && Miss(v, true) == 1;
    hide *;
    CostsSnoc([], w);
    CostsSnoc([w], v);
    CostsSnoc([w, v], v);
    CostsSnoc([w, v, v], v);
    assert [] + [w] == [w] && [w] + [v] == [w, v] && [w, v] + [v] == [w, v, v] && [w, v, v] + [v] == [w, v, v, v];
    ExcessOf([w, v, v, v]);
  }

  lemma ExcessOf(views: seq<View>)
    ensures Excess(views) == Misses(views, Costs(views).segwit)
  {
  }

  lemma EstimateOf(base: nat, views: seq<View>)
    requires Costs(views) == Cost(true, 321, 108)
    ensures (EstimatedWeight(base, views) + 3) % 4 == 1
  {
  }

  /** It does fail for mixes: three p2pkh inputs beside a p2wpkh one can be signed into a
      transaction larger than estimated. */
  lemma MixedUndercounted(tx: Tx) returns (views: seq<View>, spends: seq<Spend>)
    requires TxFits(tx) && |tx.vin| == 4
    ensures |views| == 4 && AllStandard(views, spends) && !Within(tx, views, spends)
  {
    hide *;
    var w, v, b, a := FullSpends();
    FourInputs(w, v);
    views, spends := [w, v, v, v], [b, a, a, a];
    Paired(w, v, b, a);
    EstimateOf(|TxBytes(tx)|, views);
    Beyond(tx, views, spends);
  }

  lemma Beyond(tx: Tx, views: seq<View>, spends: seq<Spend>)
    requires TxFits(tx) && |views| == |tx.vin| && AllStandard(views, spends) && AllFull(spends)
    requires Excess(views) > 3 - (EstimatedWeight(|TxBytes(tx)|, views) + 3) % 4
    ensures !Within(tx, views, spends)
  {
    hide AllStandard, AllFull, Weight, EstimatedWeight, TxBytes, Fills, Excess, Quarter, FillsFit;
    WeightBound(tx, views, spends);
    QuarterRoom(EstimatedWeight(|TxBytes(tx)|, views), Weight(tx, Fills(views, spends)), Excess(views));
  }

  lemma FullSpends() returns (w: View, v: View, b: Spend, a: Spend)
    ensures Standard(w, b) && Standard(v, a) && Full(b) && Full(a)
    ensures CostOf(w) == Cost(true, 0, 108) && CostOf(v) == Cost(false, 107, 0) && Slack(w) == Slack(v) == 0
  {
    var h: hash20, t: hash32 := seq(20, _ => 0), seq(32, _ => 0);
    var pub: pubkey := seq(33, _ => 0);
    TypesOfForms(h, t);
    w, v := View(P2wpkh(h), [], []), View(P2pkh(h), [], []);
    a, b := KeyHash(FULL_SIG, pub), WitnessKeyHash(FULL_SIG, pub);
    hide TypeOf;
  }

  lemma Paired(w: View, v: View, b: Spend, a: Spend)
    requires Standard(w, b) && Standard(v, a)
    ensures AllStandard([w, v, v, v], [b, a, a, a])
    ensures Full(b) && Full(a) ==> AllFull([b, a, a, a])
  {
    hide Standard, Full;
  }

  /** And it fails for multisig in a plain p2sh output: two signatures and three keys make a
      script signature of 254 bytes, whose length takes two bytes more than were counted. */
  lemma LongScriptUndercounted(tx: Tx, keys: seq<pubkey>, h: hash20) returns (v: View, s: Spend)
    requires TxFits(tx) && |tx.vin| == 1 && |keys| == 3
    ensures v == View(P2sh(h), MultisigScript(2, keys), []) && s == ScriptMultisig(2, keys, [FULL_SIG, FULL_SIG])
    ensures AllStandard([v], [s]) && !Within(tx, [v], [s])
  {
    v, s := View(P2sh(h), MultisigScript(2, keys), []), ScriptMultisig(2, keys, [FULL_SIG, FULL_SIG]);
    hide *;
    TwoOfThree(keys, h);
    NothingCounted();
    CostsSnoc([], v);
    assert [] + [v] == [v];
    ExcessOf([v]);
    Single(v, s);
    RoomIsSmall(EstimatedWeight(|TxBytes(tx)|, [v]));
    Beyond(tx, [v], [s]);
  }

  lemma TwoOfThree(keys: seq<pubkey>, h: hash20)
    requires |keys| == 3
    ensures var v, s := View(P2sh(h), MultisigScript(2, keys), []), ScriptMultisig(2, keys, [FULL_SIG, FULL_SIG]);
            && Standard(v, s) && Full(s) && CostOf(v) == Cost(false, 254, 0) && Miss(v, false) == 8
  {
    TypesOfForms(h, seq(32, _ => 0));
    ScriptPush(2, keys);
    hide MultisigScript, P2sh, TypeOf;
  }

  lemma RoomIsSmall(w: nat)
    ensures 3 - (w + 3) % 4 <= 3
  {
  }

  lemma Single(v: View, s: Spend)
    requires Standard(v, s) && Full(s)
    ensures AllStandard([v], [s]) && AllFull([s])
  {
    hide Standard, Full;
  }
}
