// The signing engine as a pure machine: one transaction file, one key slot, and
// the summary the screens and the signer rely on.
module Engine {
  import opened Wrappers
  import opened Sequences
  import opened Bytes
  import opened Scripts
  import opened Outputs

  const UINT64: nat := 0x1_0000_0000_0000_0000

  type amount = n: nat | n < UINT64

  datatype Coin = Coin(value: amount, script: bytes)

  /** What a file says about one input, apart from signatures. */
  datatype InputFields = InputFields(witnessUtxo: Option<Coin>, utxo: Option<seq<Coin>>, explicitAmount: Option<amount>,
                                     keypaths: seq<Keypath>, taprootPaths: seq<Keypath>)

  /** The signatures are kept by public key, one for each. */
  datatype PsbtInput = PsbtInput(fields: InputFields, signatures: map<bytes, bytes>)

  /** The unsigned transaction: the index each input spends, and the outputs. */
  datatype Transaction = Transaction(spent: seq<nat>, outputs: seq<Coin>)

  /** A parsed file. `transaction` is None when fields it needs are missing. */
  datatype Psbt = Psbt(inputs: seq<PsbtInput>, outputs: seq<PsbtOutput>, finalised: bool,
                       transaction: Option<Transaction>)

  datatype Network = Mainnet | Testnet | Signet | Regtest

  datatype Key = Key(isPrivate: bool, material: bytes)

  /** The libraries, as unknown functions. */
  datatype Crypto = Crypto(hashes: Hashes,
                           fingerprintOf: Key -> Option<fingerprint>,
                           derive: (Key, seq<nat>) -> Option<pubkey>,
                           canSign: (PsbtInput, Key) -> bool,
                           newSignatures: (Psbt, Key) -> Option<nat -> map<bytes, bytes>>,
                           validMnemonic: string -> bool,
                           masterFromMnemonic: (string, string, bool) -> Option<Key>,
                           keyFromXprv: string -> Option<Key>,
                           accountKey: (Key, seq<nat>) -> Option<string>)

  function WalletOf(c: Crypto, key: Key): Wallet {
    Wallet(c.fingerprintOf(key), path => c.derive(key, path))
  }

  // --- the summary ---------------------------------------------------------------------

  datatype InputInfo = InputInfo(value: amount, amountKnown: bool, existingSignatures: nat, canSign: bool)

  datatype OutputInfo = OutputInfo(value: amount, isOpReturn: bool, verdict: Verdict)

  datatype Reason = MissingFields | NoInputs | NoOutputs | AlreadyFinalised | MissingUtxo
                  | OutputsExceedInputs | NoDerivationPaths | ChangeMismatch

  datatype Summary = Summary(inputs: seq<InputInfo>, outputs: seq<OutputInfo>,
                             totalIn: amount, totalOut: amount, feeKnown: bool, fee: amount,
                             verifiedChange: amount, leaving: amount, ownershipChecked: bool,
                             signableInputs: nat, inputsWithDerivation: nat, alreadyFinalised: bool,
                             safeToSign: bool, blockReason: Option<Reason>)

  const EMPTY := Summary([], [], 0, 0, false, 0, 0, 0, false, 0, 0, false, false, None)

  // --- amounts ---------------------------------------------------------------------------

  /** The amount an input spends, from the first source that is present. */
  function AmountOf(f: InputFields, tx: Transaction, i: nat): Option<amount> {
    if f.witnessUtxo.Some? then Some(f.witnessUtxo.value.value)
    else if f.utxo.Some? && i < |tx.spent| then
      if tx.spent[i] < |f.utxo.value| then Some(f.utxo.value[tx.spent[i]].value) else None
    else f.explicitAmount
  }

  function ValueOr0(a: Option<amount>): amount {
    match a case Some(n) => n case None => 0
  }

  function Sum(s: seq<nat>): nat {
    if s == [] then 0 else Sum(s[..|s| - 1]) + s[|s| - 1]
  }

  lemma SumSnoc(s: seq<nat>, n: nat)
    ensures Sum(s + [n]) == Sum(s) + n
  {
    assert (s + [n])[..|s|] == s;
  }

  /** A sum kept in 64 bits. */
  function Wrapped(n: nat): amount {
    n % UINT64
  }

  lemma WrappedAdd(n: nat, m: nat)
    ensures Wrapped(Wrapped(n) + m) == Wrapped(n + m)
  {
  }

  function InputValues(infos: seq<InputInfo>): seq<nat> {
    seq(|infos|, i requires 0 <= i < |infos| => infos[i].value)
  }

  function OutputValues(infos: seq<OutputInfo>): seq<nat> {
    seq(|infos|, i requires 0 <= i < |infos| => infos[i].value)
  }

  // --- what the file alone tells --------------------------------------------------------

  function InputClaim(input: PsbtInput, tx: Transaction, i: nat): InputInfo {
    var a := AmountOf(input.fields, tx, i);
    InputInfo(ValueOr0(a), a.Some?, |input.signatures|, false)
  }

  predicate HasDerivation(f: InputFields) {
    |f.keypaths| > 0 || |f.taprootPaths| > 0
  }

  predicate IsOpReturn(script: bytes) {
    script != [] && script[0] == 0x6a
  }

  const UNCLAIMED := Verdict(ThirdParty, None, [])

  /** The first readable first entry of the two maps. */
  function Claim(o: PsbtOutput): Verdict {
    if |o.keypaths| > 0 && o.keypaths[0].master.Some? then
      Verdict(Claimed, o.keypaths[0].master, Elements(o.keypaths[0]))
    else if |o.taprootPaths| > 0 && o.taprootPaths[0].master.Some? then
      Verdict(Claimed, o.taprootPaths[0].master, Elements(o.taprootPaths[0]))
    else UNCLAIMED
  }

  function OutputClaim(p: Psbt, tx: Transaction, i: nat): OutputInfo
    requires i < |tx.outputs|
  {
    var data := IsOpReturn(tx.outputs[i].script);
    OutputInfo(tx.outputs[i].value, data, if i < |p.outputs| && !data then Claim(p.outputs[i]) else UNCLAIMED)
  }

  function Inputs(p: Psbt, tx: Transaction): (s: seq<InputInfo>)
    ensures |s| == |p.inputs|
  {
    seq(|p.inputs|, i requires 0 <= i < |p.inputs| => InputClaim(p.inputs[i], tx, i))
  }

  function OutputClaims(p: Psbt, tx: Transaction): (s: seq<OutputInfo>)
    ensures |s| == |tx.outputs|
  {
    seq(|tx.outputs|, i requires 0 <= i < |tx.outputs| => OutputClaim(p, tx, i))
  }

  function CountDerivations(inputs: seq<PsbtInput>): nat {
    if inputs == [] then 0
    else CountDerivations(inputs[..|inputs| - 1]) + if HasDerivation(inputs[|inputs| - 1].fields) then 1 else 0
  }

  predicate AllKnown(infos: seq<InputInfo>) {
    forall i | 0 <= i < |infos| :: infos[i].amountKnown
  }

  /** The summary before any key is looked at. */
  function FileSummary(p: Psbt, tx: Transaction): Summary {
    var inputs, outputs := Inputs(p, tx), OutputClaims(p, tx);
    var totalIn, totalOut := Wrapped(Sum(InputValues(inputs))), Wrapped(Sum(OutputValues(outputs)));
    var feeKnown := AllKnown(inputs) && totalIn >= totalOut;
    Summary(inputs, outputs, totalIn, totalOut, feeKnown, if feeKnown then totalIn - totalOut else 0,
            0, 0, false, 0, CountDerivations(p.inputs), p.finalised, false, None)
  }

  // --- what a key adds -------------------------------------------------------------------

  function SignableInputs(c: Crypto, key: Key, p: Psbt, infos: seq<InputInfo>): (s: seq<InputInfo>)
    requires |infos| == |p.inputs|
    ensures |s| == |infos|
  {
    seq(|infos|, i requires 0 <= i < |infos| =>
      if c.canSign(p.inputs[i], key) then infos[i].(canSign := true) else infos[i])
  }

  function CountSignable(c: Crypto, key: Key, inputs: seq<PsbtInput>): nat {
    if inputs == [] then 0
    else CountSignable(c, key, inputs[..|inputs| - 1]) + if c.canSign(inputs[|inputs| - 1], key) then 1 else 0
  }

  ghost function JudgedInfo(c: Crypto, key: Key, p: Psbt, tx: Transaction, info: OutputInfo, i: nat): OutputInfo
    requires i < |tx.outputs|
  {
    if info.isOpReturn || i >= |p.outputs| then info
    else info.(verdict := Judged(c.hashes, WalletOf(c, key), p.outputs[i], tx.outputs[i].script, info.verdict))
  }

  ghost function JudgedOutputs(c: Crypto, key: Key, p: Psbt, tx: Transaction, infos: seq<OutputInfo>)
    : (s: seq<OutputInfo>)
    requires |infos| == |tx.outputs|
    ensures |s| == |infos|
  {
    seq(|infos|, i requires 0 <= i < |infos| => JudgedInfo(c, key, p, tx, infos[i], i))
  }

  function IfVerified(info: OutputInfo): nat {
    if info.verdict.ownership == Verified then info.value else 0
  }

  function VerifiedValues(infos: seq<OutputInfo>): seq<nat> {
    seq(|infos|, i requires 0 <= i < |infos| => IfVerified(infos[i]))
  }

  function Difference(total: amount, part: amount): amount {
    if total >= part then total - part else 0
  }

  ghost function Evaluated(c: Crypto, key: Option<Key>, p: Psbt, tx: Transaction, s: Summary): Summary
    requires |s.inputs| == |p.inputs| && |s.outputs| == |tx.outputs|
  {
    var keyless := s.(signableInputs := 0, verifiedChange := 0, leaving := s.totalOut, ownershipChecked := false);
    match key
    case None => keyless
    case Some(k) =>
      var outputs := JudgedOutputs(c, k, p, tx, s.outputs);
      var change := Wrapped(Sum(VerifiedValues(outputs)));
      s.(inputs := SignableInputs(c, k, p, s.inputs), outputs := outputs,
         signableInputs := CountSignable(c, k, p.inputs),
         verifiedChange := change, leaving := Difference(s.totalOut, change), ownershipChecked := true)
  }

  // --- whether signing is allowed ----------------------------------------------------------

  predicate AnyMismatch(infos: seq<OutputInfo>) {
    exists i :: 0 <= i < |infos| && infos[i].verdict.ownership == Mismatch
  }

  /** The refusals, in the order they are looked for. */
  function FirstBlock(s: Summary, keyValid: bool): Option<Reason> {
    if s.inputs == [] then Some(NoInputs)
    else if s.outputs == [] then Some(NoOutputs)
    else if s.alreadyFinalised then Some(AlreadyFinalised)
    else if !AllKnown(s.inputs) then Some(MissingUtxo)
    else if s.totalOut > s.totalIn then Some(OutputsExceedInputs)
    else if s.inputsWithDerivation == 0 then Some(NoDerivationPaths)
    else if keyValid && AnyMismatch(s.outputs) then Some(ChangeMismatch)
    else None
  }

  function WithFindings(s: Summary, keyValid: bool): Summary {
    var b := FirstBlock(s, keyValid);
    s.(safeToSign := b == None, blockReason := b)
  }

  const INCOMPLETE := EMPTY.(blockReason := Some(MissingFields))

  /** The summary computed from nothing but the file and the key. */
  ghost function Fresh(c: Crypto, p: Psbt, key: Option<Key>): Summary {
    match p.transaction
    case None => INCOMPLETE.(alreadyFinalised := p.finalised)
    case Some(tx) => WithFindings(Evaluated(c, key, p, tx, FileSummary(p, tx)), key.Some?)
  }

  // --- the machine ---------------------------------------------------------------------------

  datatype State = State(network: Network, psbt: Option<Psbt>, key: Option<Key>, summary: Summary)

  const START := (network: Network) => State(network, None, None, EMPTY)

  datatype Event =
    | Load(file: Option<Psbt>)            // None: unreadable, empty, malformed or not for Bitcoin
    | Unload
    | SetMnemonic(mnemonic: string, passphrase: string)
    | SetXprv(xprv: string)
    | ClearKey
    | Sign
    | SetNetwork(network: Network)
    | Export(mnemonic: string, passphrase: string)

  ghost function Resummarised(c: Crypto, s: State): State {
    s.(summary := match s.psbt case None => EMPTY case Some(p) => Fresh(c, p, s.key))
  }

  function Unloaded(s: State): State {
    s.(psbt := None, summary := EMPTY)
  }

  /** Back to what the file claims: a label must not outlive the key that earned it. */
  function ClaimAgain(info: OutputInfo): OutputInfo {
    info.(verdict := info.verdict.(ownership := if info.verdict.claimed == None then ThirdParty else Claimed))
  }

  function WithoutLabels(s: Summary): Summary {
    s.(inputs := seq(|s.inputs|, i requires 0 <= i < |s.inputs| => s.inputs[i].(canSign := false)),
       outputs := seq(|s.outputs|, i requires 0 <= i < |s.outputs| => ClaimAgain(s.outputs[i])),
       signableInputs := 0, verifiedChange := 0, leaving := s.totalOut, ownershipChecked := false)
  }

  function Cleared(s: State): State {
    s.(key := None, summary := WithoutLabels(s.summary))
  }

  ghost function WithKey(c: Crypto, s: State, key: Option<Key>): State {
    var t := Cleared(s);
    if key == None then t
    else
      var u := t.(key := key);
      if u.psbt == None then u else Resummarised(c, u)
  }

  function MnemonicKey(c: Crypto, s: State, mnemonic: string, passphrase: string): Option<Key> {
    if c.validMnemonic(mnemonic) then c.masterFromMnemonic(mnemonic, passphrase, s.network == Mainnet) else None
  }

  function XprvKey(c: Crypto, xprv: string): Option<Key> {
    var k := c.keyFromXprv(xprv);
    if k.Some? && k.value.isPrivate then k else None
  }

  function Signatures(inputs: seq<PsbtInput>): nat {
    if inputs == [] then 0 else Signatures(inputs[..|inputs| - 1]) + |inputs[|inputs| - 1].signatures|
  }

  /** What the library promises of a signing call: it adds signatures, replaces none
      that is there, and touches nothing else. */
  function SignedInput(input: PsbtInput, added: map<bytes, bytes>): PsbtInput {
    input.(signatures := added + input.signatures)
  }

  function Signed(p: Psbt, added: nat -> map<bytes, bytes>): Psbt {
    p.(inputs := seq(|p.inputs|, i requires 0 <= i < |p.inputs| => SignedInput(p.inputs[i], added(i))))
  }

  predicate MaySign(s: State) {
    s.psbt.Some? && s.key.Some? && s.summary.safeToSign && s.summary.signableInputs > 0
  }

  /** The file after the signing call, when that call is made and goes through. */
  function SignCall(c: Crypto, s: State): Option<Psbt> {
    if !MaySign(s) then None
    else
      match c.newSignatures(s.psbt.value, s.key.value)
      case None => None
      case Some(added) => Some(Signed(s.psbt.value, added))
  }

  /** The number of signatures a successful `sign` reports. */
  function SignaturesAdded(c: Crypto, s: State): Option<nat> {
    match SignCall(c, s)
    case None => None
    case Some(p) =>
      var before, after := Signatures(s.psbt.value.inputs), Signatures(p.inputs);
      if after <= before then None else Some(after - before)
  }

  ghost function AfterSign(c: Crypto, s: State): State {
    match SignCall(c, s)
    case None => s
    case Some(p) =>
      var t := s.(psbt := Some(p));
      if SignaturesAdded(c, s) == None then t else Resummarised(c, t)
  }

  ghost function Step(c: Crypto, s: State, e: Event): State {
    match e
    case Load(file) =>
      var t := Unloaded(s);
      if file == None then t else Resummarised(c, t.(psbt := file))
    case Unload => Unloaded(s)
    case SetMnemonic(m, p) => WithKey(c, s, MnemonicKey(c, s, m, p))
    case SetXprv(x) => WithKey(c, s, XprvKey(c, x))
    case ClearKey => Cleared(s)
    case Sign => AfterSign(c, s)
    case SetNetwork(n) => s.(network := n)
    case Export(m, p) => if c.validMnemonic(m) then s.(key := None) else s
  }

  ghost function Run(c: Crypto, s: State, events: seq<Event>): State
    decreases |events|
  {
    if events == [] then s else Run(c, Step(c, s, events[0]), events[1..])
  }

  // --- the invariant of every run ----------------------------------------------------------

  /** The parts of a summary that do not depend on a key. */
  ghost predicate SameFacts(s: Summary, t: Summary) {
    && InputValues(s.inputs) == InputValues(t.inputs)
    && (forall i | 0 <= i < |s.inputs| ::
          s.inputs[i].amountKnown == t.inputs[i].amountKnown
          && s.inputs[i].existingSignatures == t.inputs[i].existingSignatures)
    && OutputValues(s.outputs) == OutputValues(t.outputs)
    && s.totalIn == t.totalIn && s.totalOut == t.totalOut
    && s.feeKnown == t.feeKnown && s.fee == t.fee
    && s.inputsWithDerivation == t.inputsWithDerivation && s.alreadyFinalised == t.alreadyFinalised
  }

  /** With a key and a file the summary is never out of date; without a file it is
      empty; without a key its facts about the file still hold. */
  ghost predicate UpToDate(c: Crypto, s: State) {
    match s.psbt
    case None => s.summary == EMPTY
    case Some(p) =>
      && (s.key.Some? ==> s.summary == Fresh(c, p, s.key))
      && SameFacts(s.summary, Fresh(c, p, None))
  }

  lemma FactsTransitive(s: Summary, t: Summary, u: Summary)
    requires SameFacts(s, t) && SameFacts(t, u)
    ensures SameFacts(s, u)
  {
    assert |s.inputs| == |InputValues(s.inputs)| == |t.inputs|;
  }

  lemma ClearingKeepsFacts(s: Summary)
    ensures SameFacts(WithoutLabels(s), s)
  {
    var t := WithoutLabels(s);
    assert forall i | 0 <= i < |s.inputs| :: t.inputs[i] == s.inputs[i].(canSign := false);
    assert forall i | 0 <= i < |s.outputs| :: t.outputs[i] == ClaimAgain(s.outputs[i]);
  }

  lemma KeyKeepsFacts(c: Crypto, p: Psbt, key: Option<Key>)
    ensures SameFacts(Fresh(c, p, key), Fresh(c, p, None))
  {
    if key.Some? && p.transaction.Some? {
      var s := FileSummary(p, p.transaction.value);
      EvaluationKeepsFacts(c, key.value, p, p.transaction.value, s);
    }
    hide FileSummary, InputValues, OutputValues, JudgedOutputs, SignableInputs;
  }

  lemma EvaluationKeepsFacts(c: Crypto, key: Key, p: Psbt, tx: Transaction, s: Summary)
    requires |s.inputs| == |p.inputs| && |s.outputs| == |tx.outputs|
    ensures SameFacts(Evaluated(c, Some(key), p, tx, s), s)
  {
    hide Judged;
    var t := Evaluated(c, Some(key), p, tx, s);
    assert forall i | 0 <= i < |s.inputs| :: t.inputs[i].value == s.inputs[i].value;
    assert forall i | 0 <= i < |s.outputs| :: t.outputs[i].value == s.outputs[i].value;
  }

  // --- what a signing call changes -----------------------------------------------------------

  lemma MoreSignatures(had: map<bytes, bytes>, added: map<bytes, bytes>)
    ensures |added + had| >= |had|
    ensures |added + had| == |had| ==> added + had == had
  {
    var both := added + had;
    assert had.Keys <= both.Keys;
    SubsetSize(had.Keys, both.Keys);
    assert |both.Keys| == |both| && |had.Keys| == |had|;
  }

  lemma SubsetSize<T>(a: set<T>, b: set<T>)
    requires a <= b
    ensures |a| <= |b| && (|a| == |b| ==> a == b)
  {
    assert b == a + (b - a);
  }

  lemma {:induction false} CountsGrow(had: seq<PsbtInput>, signed: seq<PsbtInput>, added: nat -> map<bytes, bytes>)
    requires |signed| == |had| && forall i | 0 <= i < |had| :: signed[i] == SignedInput(had[i], added(i))
    ensures Signatures(signed) >= Signatures(had)
    ensures Signatures(signed) == Signatures(had) ==> signed == had
    decreases |had|
  {
    if had != [] {
      var a, x := SplitLast(had);
      var b, y := SplitLast(signed);
      CountsGrow(a, b, added);
      MoreSignatures(x.signatures, added(|a|));
    }
  }

  /** A signing that reports no new signature has changed nothing at all, and so the
      path that leaves the summary alone leaves it right. */
  lemma SilentSigning(c: Crypto, s: State)
    requires SignaturesAdded(c, s) == None
    ensures AfterSign(c, s) == s
  {
    if SignCall(c, s).Some? {
      var p := s.psbt.value;
      var added := c.newSignatures(p, s.key.value).value;
      CountsGrow(p.inputs, Signed(p, added).inputs, added);
    }
    hide Fresh;
  }

  lemma StepKeepsUpToDate(c: Crypto, s: State, e: Event)
    requires UpToDate(c, s)
    ensures UpToDate(c, Step(c, s, e))
  {
    hide Fresh, SameFacts, WithoutLabels;
    match e
    case Load(file) =>
      if file.Some? {
        KeyKeepsFacts(c, file.value, s.key);
      }
    case Unload =>
    case SetMnemonic(m, p) => WithKeyUpToDate(c, s, MnemonicKey(c, s, m, p));
    case SetXprv(x) => WithKeyUpToDate(c, s, XprvKey(c, x));
    case ClearKey => ClearedUpToDate(c, s);
    case Sign => SignUpToDate(c, s);
    case SetNetwork(n) =>
    case Export(m, p) =>
  }

  lemma ClearedUpToDate(c: Crypto, s: State)
    requires UpToDate(c, s)
    ensures UpToDate(c, Cleared(s))
  {
    hide Fresh, SameFacts;
    match s.psbt
    case None =>
      assert WithoutLabels(EMPTY) == EMPTY;
    case Some(p) =>
      ClearingKeepsFacts(s.summary);
      FactsTransitive(WithoutLabels(s.summary), s.summary, Fresh(c, p, None));
  }

  lemma WithKeyUpToDate(c: Crypto, s: State, key: Option<Key>)
    requires UpToDate(c, s)
    ensures UpToDate(c, WithKey(c, s, key))
  {
    hide Fresh, SameFacts, WithoutLabels;
    ClearedUpToDate(c, s);
    if key.Some? && s.psbt.Some? {
      KeyKeepsFacts(c, s.psbt.value, key);
    }
  }

  lemma SignUpToDate(c: Crypto, s: State)
    requires UpToDate(c, s)
    ensures UpToDate(c, AfterSign(c, s))
  {
    hide Fresh, SameFacts, Signatures;
    if SignaturesAdded(c, s) == None {
      SilentSigning(c, s);
    } else {
      KeyKeepsFacts(c, SignCall(c, s).value, s.key);
    }
  }

  /** Whatever is loaded, entered, cleared, signed or exported, in any order, the
      summary is up to date. */
  lemma {:induction false} RunsStayUpToDate(c: Crypto, s: State, events: seq<Event>)
    requires UpToDate(c, s)
    ensures UpToDate(c, Run(c, s, events))
    decreases |events|
  {
    if events != [] {
      hide UpToDate;
      StepKeepsUpToDate(c, s, events[0]);
      RunsStayUpToDate(c, Step(c, s, events[0]), events[1..]);
    }
  }

  // --- what a signature implies ----------------------------------------------------------

  /** The file can be signed with the key: every amount is known, outputs do not
      exceed inputs, and no output posing as change fails its proof. */
  ghost predicate SafeFor(c: Crypto, p: Psbt, key: Key) {
    && p.transaction.Some? && !p.finalised
    && var tx := p.transaction.value;
    && p.inputs != [] && tx.outputs != []
    && (forall i | 0 <= i < |p.inputs| :: AmountOf(p.inputs[i].fields, tx, i).Some?)
    && Wrapped(Sum(Spent(p, tx))) >= Wrapped(Sum(Paid(tx)))
    && (exists i :: 0 <= i < |p.inputs| && HasDerivation(p.inputs[i].fields))
    && forall i | 0 <= i < |tx.outputs| && i < |p.outputs| && !IsOpReturn(tx.outputs[i].script) ::
         LabelOf(c, key, p.outputs[i], tx.outputs[i].script) != Mismatch
  }

  ghost function LabelOf(c: Crypto, key: Key, o: PsbtOutput, script: bytes): Ownership {
    Label(c.hashes, WalletOf(c, key), o, script, Entries(o))
  }

  function Spent(p: Psbt, tx: Transaction): seq<nat> {
    seq(|p.inputs|, i requires 0 <= i < |p.inputs| => ValueOr0(AmountOf(p.inputs[i].fields, tx, i)) as nat)
  }

  function Paid(tx: Transaction): seq<nat> {
    seq(|tx.outputs|, i requires 0 <= i < |tx.outputs| => tx.outputs[i].value as nat)
  }

  lemma FileValues(p: Psbt, tx: Transaction)
    ensures InputValues(Inputs(p, tx)) == Spent(p, tx)
    ensures OutputValues(OutputClaims(p, tx)) == Paid(tx)
    ensures AllKnown(Inputs(p, tx)) <==> forall i | 0 <= i < |p.inputs| :: AmountOf(p.inputs[i].fields, tx, i).Some?
  {
    hide AmountOf;
    var infos := Inputs(p, tx);
    assert forall i | 0 <= i < |p.inputs| :: infos[i].amountKnown == AmountOf(p.inputs[i].fields, tx, i).Some?;
  }

  lemma {:induction false} SomeDerivation(inputs: seq<PsbtInput>)
    ensures CountDerivations(inputs) > 0 <==> exists i :: 0 <= i < |inputs| && HasDerivation(inputs[i].fields)
  {
    if inputs != [] {
      var init, last := SplitLast(inputs);
      SomeDerivation(init);
      if CountDerivations(inputs) > 0 && !HasDerivation(last.fields) {
        var i :| 0 <= i < |init| && HasDerivation(init[i].fields);
        assert HasDerivation(inputs[i].fields);
      }
      if j :| 0 <= j < |inputs| && HasDerivation(inputs[j].fields) {
        assert j < |init| ==> HasDerivation(init[j].fields);
      }
    }
  }

  /** A fresh summary allows signing exactly when the file is safe for the key. */
  lemma SafeExactly(c: Crypto, p: Psbt, key: Key)
    ensures Fresh(c, p, Some(key)).safeToSign <==> SafeFor(c, p, key)
  {
    if p.transaction.Some? {
      var tx := p.transaction.value;
      FileValues(p, tx);
      SomeDerivation(p.inputs);
      MismatchExactly(c, key, p, tx);
      KnownExactly(c, key, p, Inputs(p, tx));
      hide InputValues, OutputValues, Inputs, OutputClaims, Spent, Paid, CountDerivations, LabelOf, JudgedOutputs,
           SignableInputs, AnyMismatch, AllKnown, Sum, Wrapped, AmountOf, VerifiedValues, HasDerivation;
    }
  }

  lemma KnownExactly(c: Crypto, key: Key, p: Psbt, infos: seq<InputInfo>)
    requires |infos| == |p.inputs|
    ensures AllKnown(SignableInputs(c, key, p, infos)) <==> AllKnown(infos)
    ensures SignableInputs(c, key, p, infos) == [] <==> infos == []
  {
    var t := SignableInputs(c, key, p, infos);
    assert forall i | 0 <= i < |infos| :: t[i].amountKnown == infos[i].amountKnown;
  }

  lemma MismatchExactly(c: Crypto, key: Key, p: Psbt, tx: Transaction)
    ensures AnyMismatch(JudgedOutputs(c, key, p, tx, OutputClaims(p, tx))) <==>
      exists i :: 0 <= i < |tx.outputs| && i < |p.outputs| && !IsOpReturn(tx.outputs[i].script)
               && LabelOf(c, key, p.outputs[i], tx.outputs[i].script) == Mismatch
  {
    hide Label, WalletOf;
    var infos := JudgedOutputs(c, key, p, tx, OutputClaims(p, tx));
    forall i | 0 <= i < |tx.outputs|
      ensures infos[i].verdict.ownership == Mismatch <==>
        i < |p.outputs| && !IsOpReturn(tx.outputs[i].script)
        && LabelOf(c, key, p.outputs[i], tx.outputs[i].script) == Mismatch
    {
      assert infos[i] == JudgedInfo(c, key, p, tx, OutputClaim(p, tx, i), i);
    }
  }

  lemma {:induction false} SomeSignable(c: Crypto, key: Key, inputs: seq<PsbtInput>)
    ensures CountSignable(c, key, inputs) > 0 <==> exists i :: 0 <= i < |inputs| && c.canSign(inputs[i], key)
    decreases |inputs|
  {
    if inputs != [] {
      var init, last := SplitLast(inputs);
      SomeSignable(c, key, init);
      if CountSignable(c, key, init) > 0 {
        var i :| 0 <= i < |init| && c.canSign(init[i], key);
        assert c.canSign(inputs[i], key);
      }
      if j :| 0 <= j < |inputs| && c.canSign(inputs[j], key) {
        assert j < |init| ==> c.canSign(init[j], key);
      }
      assert c.canSign(last, key) ==> c.canSign(inputs[|init|], key);
    }
  }

  /** The amounts of a file added up as they are, past 64 bits if need be. */
  function TotalSpent(p: Psbt): nat
    requires p.transaction.Some?
  {
    Sum(Spent(p, p.transaction.value))
  }

  function TotalPaid(p: Psbt): nat
    requires p.transaction.Some?
  {
    Sum(Paid(p.transaction.value))
  }

  /** The two amounts fit 64 bits, or both wrapped around equally often. */
  predicate WrappedAlike(p: Psbt)
    requires p.transaction.Some?
  {
    TotalPaid(p) / UINT64 == TotalSpent(p) / UINT64
  }

  /** What the fee and the check against overspending are worth: outputs stay within
      inputs exactly when they wrapped around no more often, and the fee shown is the
      true one exactly when both wrapped equally often. */
  predicate TotalsAsShown(p: Psbt, fee: nat)
    requires p.transaction.Some?
  {
    && (TotalPaid(p) <= TotalSpent(p) <==> TotalPaid(p) / UINT64 <= TotalSpent(p) / UINT64)
    && (fee == TotalSpent(p) - TotalPaid(p) <==> WrappedAlike(p))
  }

  /** The file and the key that a signing call would be made with. */
  lemma MaySignIsSafe(c: Crypto, s: State)
    requires UpToDate(c, s) && MaySign(s)
    ensures SafeFor(c, s.psbt.value, s.key.value)
    ensures exists i :: 0 <= i < |s.psbt.value.inputs| && c.canSign(s.psbt.value.inputs[i], s.key.value)
    ensures s.summary.feeKnown && TotalsAsShown(s.psbt.value, s.summary.fee)
  {
    var p := s.psbt.value;
    SafeExactly(c, p, s.key.value);
    FeeIsDifference(c, p, s.key.value);
    FeeExactly(c, p, s.key);
    OverspendExactly(c, p, s.key.value);
    SignableOf(c, p, s.key.value);
    SomeSignable(c, s.key.value, p.inputs);
    hide SafeFor, Fresh, Sum, Spent, Paid, Wrapped, CountSignable;
  }

  /** The whole point: the signing call is only ever made for a file that is safe for
      the key that signs it, whatever happened before. */
  lemma SignedIsSafe(c: Crypto, network: Network, events: seq<Event>)
    ensures var s := Run(c, START(network), events);
            MaySign(s) ==>
              && SafeFor(c, s.psbt.value, s.key.value)
              && (exists i :: 0 <= i < |s.psbt.value.inputs| && c.canSign(s.psbt.value.inputs[i], s.key.value))
              && s.summary.feeKnown && TotalsAsShown(s.psbt.value, s.summary.fee)
  {
    RunsStayUpToDate(c, START(network), events);
    var s := Run(c, START(network), events);
    if MaySign(s) {
      MaySignIsSafe(c, s);
    }
    hide SafeFor, TotalsAsShown, Run, UpToDate;
  }

  /** A file that is cleared for signing pays out no more than it spends exactly when
      its outputs wrapped around no more often than its inputs. */
  lemma OverspendExactly(c: Crypto, p: Psbt, key: Key)
    requires SafeFor(c, p, key)
    ensures TotalPaid(p) <= TotalSpent(p) <==> TotalPaid(p) / UINT64 <= TotalSpent(p) / UINT64
  {
    var paid, spent := TotalPaid(p), TotalSpent(p);
    assert Wrapped(spent) >= Wrapped(paid);
    hide *;
    QuotientsOrder(paid, spent);
  }

  lemma QuotientsOrder(m: nat, n: nat)
    requires Wrapped(m) <= Wrapped(n)
    ensures m <= n <==> m / UINT64 <= n / UINT64
  {
  }

  /** While both totals fit 64 bits nothing wrapped: outputs do not exceed inputs and the
      fee shown is the difference. */
  lemma SmallTotals(p: Psbt, fee: nat)
    requires p.transaction.Some? && TotalsAsShown(p, fee)
    requires TotalPaid(p) < UINT64 && TotalSpent(p) < UINT64
    ensures TotalPaid(p) <= TotalSpent(p) && fee == TotalSpent(p) - TotalPaid(p)
  {
    hide TotalPaid, TotalSpent;
  }

  /** One input of one satoshi with a key path, and two outputs that add up to one
      satoshi in 64 bits. */
  function OneSatoshi(path: Keypath): PsbtInput {
    PsbtInput(InputFields(Some(Coin(1, [])), None, None, [path], []), map[])
  }

  function Overspend(path: Keypath): Psbt {
    Psbt([OneSatoshi(path)], [], false, Some(Transaction([0], [Coin(UINT64 - 1, []), Coin(2, [])])))
  }

  /** Beyond 64 bits an overspend can be signed: two events lead to a signing call for
      outputs that exceed the one input by 2^64, with a fee of zero on the screen. */
  lemma OverspendSigned(c: Crypto, m: string, phrase: string, key: Key, path: Keypath)
    requires c.validMnemonic(m) && c.masterFromMnemonic(m, phrase, true) == Some(key)
    requires c.canSign(OneSatoshi(path), key)
    ensures var s := Run(c, START(Mainnet), [Load(Some(Overspend(path))), SetMnemonic(m, phrase)]);
            MaySign(s) && s.psbt == Some(Overspend(path)) && s.summary.feeKnown && s.summary.fee == 0
    ensures TotalPaid(Overspend(path)) == TotalSpent(Overspend(path)) + UINT64
  {
    var p := Overspend(path);
    OverspendTotals(path);
    OverspendIsSafe(c, key, path);
    SafeExactly(c, p, key);
    SignableOf(c, p, key);
    SomeSignable(c, key, p.inputs);
    assert c.canSign(p.inputs[0], key);
    FeeIsDifference(c, p, key);
    hide *;
    LoadThenKey(c, p, m, phrase, key);
    Signable(c, p, key);
  }

  lemma Signable(c: Crypto, p: Psbt, key: Key)
    ensures var s := State(Mainnet, Some(p), Some(key), Fresh(c, p, Some(key)));
            MaySign(s) <==> s.summary.safeToSign && s.summary.signableInputs > 0
  {
    hide Fresh;
  }

  lemma LoadThenKey(c: Crypto, p: Psbt, m: string, phrase: string, key: Key)
    requires c.validMnemonic(m) && c.masterFromMnemonic(m, phrase, true) == Some(key)
    ensures Run(c, START(Mainnet), [Load(Some(p)), SetMnemonic(m, phrase)])
         == State(Mainnet, Some(p), Some(key), Fresh(c, p, Some(key)))
  {
    hide Fresh, WithoutLabels;
    var a, b := Load(Some(p)), SetMnemonic(m, phrase);
    assert [a, b][1..] == [b] && [b][1..] == [];
    var s := Step(c, START(Mainnet), a);
    assert Step(c, s, b) == State(Mainnet, Some(p), Some(key), Fresh(c, p, Some(key)));
    assert Run(c, s, [b]) == Run(c, Step(c, s, b), []) == Step(c, s, b);
  }

  lemma OverspendTotals(path: Keypath)
    ensures var p := Overspend(path);
            TotalSpent(p) == 1 && TotalPaid(p) == UINT64 + 1 && Wrapped(TotalSpent(p)) == Wrapped(TotalPaid(p)) == 1
  {
    var p := Overspend(path);
    assert Spent(p, p.transaction.value) == [1] && Paid(p.transaction.value) == [UINT64 - 1, 2];
    SumOfTwo(1, 0);
    SumOfTwo(UINT64 - 1, 2);
    hide Sum, Spent, Paid;
  }

  lemma OverspendIsSafe(c: Crypto, key: Key, path: Keypath)
    ensures SafeFor(c, Overspend(path), key)
  {
    OverspendTotals(path);
    hide Sum, Wrapped, LabelOf;
    var p := Overspend(path);
    assert HasDerivation(p.inputs[0].fields);
  }

  lemma SignableOf(c: Crypto, p: Psbt, key: Key)
    requires p.transaction.Some?
    ensures Fresh(c, p, Some(key)).signableInputs == CountSignable(c, key, p.inputs)
  {
    hide FileSummary, JudgedOutputs, SignableInputs, VerifiedValues, CountSignable, Sum;
  }

  /** Signing is open again after a signature exactly while the key can still sign some
      input: the checks on the file do not look at signatures. */
  lemma OpenAfterSigning(c: Crypto, s: State)
    requires UpToDate(c, s) && SignaturesAdded(c, s).Some?
    ensures var t := AfterSign(c, s);
            && t.psbt.Some? && t.key == s.key
            && (MaySign(t) <==>
                  exists i :: 0 <= i < |t.psbt.value.inputs| && c.canSign(t.psbt.value.inputs[i], t.key.value))
  {
    var p, q, key := s.psbt.value, SignCall(c, s).value, s.key.value;
    SafeExactly(c, p, key);
    SafeExactly(c, q, key);
    SafetyIgnoresSignatures(c, p, c.newSignatures(p, key).value, key);
    SignableOf(c, q, key);
    SomeSignable(c, key, q.inputs);
    hide SafeFor, Fresh, CountSignable, Signatures, Signed;
  }

  lemma SafetyIgnoresSignatures(c: Crypto, p: Psbt, added: nat -> map<bytes, bytes>, key: Key)
    requires SafeFor(c, p, key)
    ensures SafeFor(c, Signed(p, added), key)
  {
    hide Sum, Wrapped, LabelOf, AmountOf, HasDerivation;
    var q := Signed(p, added);
    assert forall i | 0 <= i < |p.inputs| :: q.inputs[i] == SignedInput(p.inputs[i], added(i));
    assert Spent(q, p.transaction.value) == Spent(p, p.transaction.value);
    var i :| 0 <= i < |p.inputs| && HasDerivation(p.inputs[i].fields);
    assert HasDerivation(q.inputs[i].fields);
  }

  // --- labels and the key that earned them ---------------------------------------------

  predicate MereClaims(s: Summary) {
    && (forall i | 0 <= i < |s.outputs| :: s.outputs[i].verdict.ownership in {ThirdParty, Claimed})
    && !s.ownershipChecked && s.verifiedChange == 0 && s.signableInputs == 0
  }

  /** A key is there, and a complete file it was held against. */
  predicate Judging(s: State) {
    s.key.Some? && s.psbt.Some? && s.psbt.value.transaction.Some?
  }

  lemma ClaimsOnly(c: Crypto, p: Psbt, s: Summary)
    ensures MereClaims(Fresh(c, p, None)) && MereClaims(WithoutLabels(s))
  {
    hide Sum, InputClaim;
  }

  /** With a complete file and a key the summary says that it was checked; otherwise it
      holds nothing but claims. */
  lemma JudgingExactly(c: Crypto, s: State)
    requires UpToDate(c, s) && (s.key == None ==> MereClaims(s.summary))
    ensures Judging(s) <==> !MereClaims(s.summary)
  {
    hide FileSummary, JudgedOutputs, SignableInputs, VerifiedValues, CountSignable, Sum, SameFacts;
  }

  /** What the outputs show after an export that went as far as making a key. */
  predicate Standing(s: State) {
    s.key == None && !MereClaims(s.summary)
  }

  /** An export takes the key away, and leaves labels standing exactly when there was a
      key and a complete file to earn them. An output then still shows a verdict of
      that key exactly when an entry of it named the key's master. */
  lemma ExportLeavesLabels(c: Crypto, s: State, m: string, phrase: string)
    requires UpToDate(c, s) && (s.key == None ==> MereClaims(s.summary)) && c.validMnemonic(m)
    ensures var t := Step(c, s, Export(m, phrase));
            t.key == None && t.psbt == s.psbt && (Standing(t) <==> Judging(s))
    ensures Judging(s) ==>
      var t, p, tx := Step(c, s, Export(m, phrase)), s.psbt.value, s.psbt.value.transaction.value;
      && |t.summary.outputs| == |tx.outputs|
      && forall i | 0 <= i < |tx.outputs| ::
           t.summary.outputs[i].verdict.ownership in {Verified, Mismatch, Unverifiable} <==>
             i < |p.outputs| && !IsOpReturn(tx.outputs[i].script) && NamesMaster(c, s.key.value, p.outputs[i])
  {
    JudgingExactly(c, s);
    if Judging(s) {
      var p, tx := s.psbt.value, s.psbt.value.transaction.value;
      LabelsShown(c, p, s.key.value);
    }
    hide Fresh, MereClaims, SameFacts, NamesMaster;
  }

  ghost predicate NamesMaster(c: Crypto, key: Key, o: PsbtOutput) {
    exists e :: e in Entries(o) && NamesUs(WalletOf(c, key), e)
  }

  lemma LabelsShown(c: Crypto, p: Psbt, key: Key)
    requires p.transaction.Some?
    ensures var s, tx := Fresh(c, p, Some(key)), p.transaction.value;
            && |s.outputs| == |tx.outputs|
            && forall i | 0 <= i < |tx.outputs| ::
                 s.outputs[i].verdict.ownership in {Verified, Mismatch, Unverifiable} <==>
                   i < |p.outputs| && !IsOpReturn(tx.outputs[i].script) && NamesMaster(c, key, p.outputs[i])
  {
    hide Sum, InputClaim, NamesUs, WalletOf, Has, OwnershipForScript;
    var s, tx := Fresh(c, p, Some(key)), p.transaction.value;
    forall i | 0 <= i < |tx.outputs|
      ensures s.outputs[i].verdict.ownership in {Verified, Mismatch, Unverifiable} <==>
                i < |p.outputs| && !IsOpReturn(tx.outputs[i].script) && NamesMaster(c, key, p.outputs[i])
    {
      assert s.outputs[i] == JudgedInfo(c, key, p, tx, OutputClaim(p, tx, i), i);
      if i < |p.outputs| && !IsOpReturn(tx.outputs[i].script) {
        ThirdPartyExactly(c.hashes, WalletOf(c, key), p.outputs[i], tx.outputs[i].script);
      }
    }
  }

  /** An event that neither summarises anew nor puts back the claims. */
  predicate LeavesSummary(e: Event) {
    e.Sign? || e.SetNetwork? || e.Export?
  }

  predicate Exports(c: Crypto, e: Event) {
    e.Export? && c.validMnemonic(e.mnemonic)
  }

  lemma StepStanding(c: Crypto, s: State, e: Event)
    requires UpToDate(c, s)
    ensures Standing(Step(c, s, e)) <==>
              (Standing(s) && LeavesSummary(e)) || (Exports(c, e) && s.key.Some? && Judging(s))
  {
    hide Fresh, WithoutLabels, SameFacts;
    match e
    case Load(file) =>
      if file.Some? {
        ClaimsOnly(c, file.value, s.summary);
      }
    case Export(m, p) =>
      if s.key.Some? {
        JudgingExactly(c, s);
      }
    case SetMnemonic(_, _) => ClaimsOnly(c, Psbt([], [], false, None), s.summary);
    case SetXprv(_) => ClaimsOnly(c, Psbt([], [], false, None), s.summary);
    case ClearKey => ClaimsOnly(c, Psbt([], [], false, None), s.summary);
    case _ =>
  }

  /** The i-th event of a run took the key from labels, and nothing since touched them. */
  ghost predicate LeftStanding(c: Crypto, s: State, events: seq<Event>, i: nat)
    requires i < |events|
  {
    && Exports(c, events[i]) && Judging(Run(c, s, events[..i]))
    && forall j | i < j < |events| :: LeavesSummary(events[j])
  }

  lemma {:induction false} RunSnoc(c: Crypto, s: State, events: seq<Event>, e: Event)
    ensures Run(c, s, events + [e]) == Step(c, Run(c, s, events), e)
    decreases |events|
  {
    hide Step;
    if events == [] {
      assert [] + [e] == [e] && [e][1..] == [];
    } else {
      assert (events + [e])[0] == events[0] && (events + [e])[1..] == events[1..] + [e];
      RunSnoc(c, Step(c, s, events[0]), events[1..], e);
    }
  }

  /** Over all runs: labels stand without the key that earned them exactly when an
      export took it while a complete file was loaded, and since then nothing was
      loaded, unloaded, entered or cleared. */
  lemma {:induction false} LabelsOutliveExactly(c: Crypto, network: Network, events: seq<Event>)
    ensures Standing(Run(c, START(network), events)) <==>
              exists i :: 0 <= i < |events| && LeftStanding(c, START(network), events, i)
    decreases |events|
  {
    hide Run, Step, UpToDate, Standing, Judging, Exports, LeavesSummary;
    if events == [] {
      NothingStands(c, network);
    } else {
      var init, e := SplitLast(events);
      var s := Run(c, START(network), init);
      LabelsOutliveExactly(c, network, init);
      RunsStartUpToDate(c, network, init);
      StepStanding(c, s, e);
      JudgingHasKey(s);
      RunSnoc(c, START(network), init, e);
      assert events[..|init|] == init;
      assert forall i | 0 <= i < |init| :: events[..i] == init[..i] && events[i] == init[i];
      if i :| 0 <= i < |init| && LeftStanding(c, START(network), init, i) && LeavesSummary(e) {
        assert LeftStanding(c, START(network), events, i);
      }
      if i :| 0 <= i < |events| && LeftStanding(c, START(network), events, i) {
        if i < |init| {
          assert LeavesSummary(events[|init|]);
          assert LeftStanding(c, START(network), init, i);
        }
      }
      if Exports(c, e) && Judging(s) {
        assert LeftStanding(c, START(network), events, |init|);
      }
    }
  }

  lemma JudgingHasKey(s: State)
    ensures Judging(s) ==> s.key.Some?
  {
  }

  lemma NothingStands(c: Crypto, network: Network)
    ensures !Standing(Run(c, START(network), []))
  {
  }

  lemma RunsStartUpToDate(c: Crypto, network: Network, events: seq<Event>)
    ensures UpToDate(c, Run(c, START(network), events))
  {
    RunsStayUpToDate(c, START(network), events);
    hide Run;
  }

  lemma FeeIsDifference(c: Crypto, p: Psbt, key: Key)
    requires SafeFor(c, p, key)
    ensures Fresh(c, p, Some(key)).feeKnown
    ensures Fresh(c, p, Some(key)).fee == Wrapped(TotalSpent(p)) - Wrapped(TotalPaid(p))
  {
    FileValues(p, p.transaction.value);
    hide InputValues, OutputValues, Inputs, OutputClaims, Spent, Paid, JudgedOutputs, SignableInputs, AllKnown, Sum,
         Wrapped, AmountOf, VerifiedValues;
  }

  // --- 64-bit totals -------------------------------------------------------------------------

  lemma FileTotals(c: Crypto, p: Psbt, key: Option<Key>)
    requires p.transaction.Some?
    ensures var s, tx := Fresh(c, p, key), p.transaction.value;
            && s.totalIn == Wrapped(Sum(Spent(p, tx))) && s.totalOut == Wrapped(Sum(Paid(tx)))
            && (s.feeKnown ==> s.totalIn >= s.totalOut && s.fee == s.totalIn - s.totalOut)
  {
    FileValues(p, p.transaction.value);
    KeyKeepsFacts(c, p, key);
    hide *;
    Unfolded(c, p);
    SameTotals(Fresh(c, p, key), Fresh(c, p, None));
  }

  lemma SameTotals(s: Summary, t: Summary)
    requires SameFacts(s, t)
    ensures s.totalIn == t.totalIn && s.totalOut == t.totalOut && s.feeKnown == t.feeKnown && s.fee == t.fee
  {
  }

  lemma Unfolded(c: Crypto, p: Psbt)
    requires p.transaction.Some?
    ensures var s, tx := Fresh(c, p, None), p.transaction.value;
            && s.totalIn == Wrapped(Sum(InputValues(Inputs(p, tx))))
            && s.totalOut == Wrapped(Sum(OutputValues(OutputClaims(p, tx))))
            && (s.feeKnown ==> s.totalIn >= s.totalOut && s.fee == s.totalIn - s.totalOut)
  {
    hide Sum, InputValues, OutputValues, Inputs, OutputClaims, AllKnown;
  }

  /** The fee is the true difference exactly when both totals wrapped equally often. */
  lemma FeeExactly(c: Crypto, p: Psbt, key: Option<Key>)
    requires p.transaction.Some? && Fresh(c, p, key).feeKnown
    ensures var spent, paid := Sum(Spent(p, p.transaction.value)), Sum(Paid(p.transaction.value));
            Fresh(c, p, key).fee == spent - paid <==> spent / UINT64 == paid / UINT64
  {
    FileTotals(c, p, key);
    hide *;
    WrappedDifference(Sum(Spent(p, p.transaction.value)), Sum(Paid(p.transaction.value)));
  }

  lemma WrappedDifference(m: nat, n: nat)
    ensures Wrapped(m) - Wrapped(n) == m - n <==> m / UINT64 == n / UINT64
  {
  }

  lemma SumOfTwo(a: nat, b: nat)
    ensures Sum([a]) == a && Sum([a, b]) == a + b
  {
    SumSnoc([], a);
    SumSnoc([a], b);
    assert [] + [a] == [a] && [a] + [b] == [a, b];
    assert Sum([]) == 0;
  }

  /** It need not be: two inputs can wrap around, and the fee shown is then zero. */
  lemma WrappedFee(c: Crypto) returns (p: Psbt)
    ensures p.transaction.Some?
    ensures var s := Fresh(c, p, None);
            s.feeKnown && s.fee == 0
            && Sum(Spent(p, p.transaction.value)) - Sum(Paid(p.transaction.value)) == UINT64
  {
    var a := PsbtInput(InputFields(Some(Coin(UINT64 - 1, [])), None, None, [], []), map[]);
    var b := PsbtInput(InputFields(Some(Coin(1, [])), None, None, [], []), map[]);
    var tx := Transaction([0, 0], [Coin(0, [])]);
    p := Psbt([a, b], [], false, Some(tx));
    assert Spent(p, tx) == [UINT64 - 1, 1] && Paid(tx) == [0];
    assert AllKnown(Inputs(p, tx));
    KnownFee(c, p);
    SumOfTwo(UINT64 - 1, 1);
    SumOfTwo(0, 0);
    FileTotals(c, p, None);
    hide Sum, Spent, Paid, Fresh;
  }

  lemma KnownFee(c: Crypto, p: Psbt)
    requires p.transaction.Some? && AllKnown(Inputs(p, p.transaction.value))
    ensures Fresh(c, p, None).feeKnown == (Fresh(c, p, None).totalIn >= Fresh(c, p, None).totalOut)
  {
    hide Sum, InputValues, OutputValues, Inputs, OutputClaims, AllKnown;
  }

  function OtherValues(infos: seq<OutputInfo>): seq<nat> {
    seq(|infos|, i requires 0 <= i < |infos| =>
      if infos[i].verdict.ownership == Verified then 0 else infos[i].value as nat)
  }

  lemma {:induction false} SumSplits(infos: seq<OutputInfo>)
    ensures Sum(OutputValues(infos)) == Sum(VerifiedValues(infos)) + Sum(OtherValues(infos))
    decreases |infos|
  {
    if infos != [] {
      var init, last := SplitLast(infos);
      SumSplits(init);
      assert OutputValues(infos) == OutputValues(init) + [last.value as nat];
      assert VerifiedValues(infos) == VerifiedValues(init) + [IfVerified(last)];
      assert OtherValues(infos)
          == OtherValues(init) + [if last.verdict.ownership == Verified then 0 else last.value as nat];
      SumSnoc(OutputValues(init), last.value);
      SumSnoc(VerifiedValues(init), IfVerified(last));
      SumSnoc(OtherValues(init), if last.verdict.ownership == Verified then 0 else last.value);
    }
  }

  lemma JudgedTotals(c: Crypto, p: Psbt, key: Key)
    requires p.transaction.Some?
    ensures var s := Fresh(c, p, Some(key));
            && s.verifiedChange == Wrapped(Sum(VerifiedValues(s.outputs)))
            && s.leaving == Difference(s.totalOut, s.verifiedChange)
            && OutputValues(s.outputs) == Paid(p.transaction.value)
  {
    FileValues(p, p.transaction.value);
    KeyKeepsFacts(c, p, Some(key));
    hide Sum, InputValues, OutputValues, Inputs, OutputClaims, AllKnown, JudgedOutputs, SignableInputs, VerifiedValues,
         Paid;
  }

  /** Change and leaving make up the total exactly when the wrapped change does not
      pass the wrapped total. */
  lemma ConservationExactly(c: Crypto, p: Psbt, key: Key)
    requires p.transaction.Some?
    ensures var s := Fresh(c, p, Some(key));
            (s.verifiedChange + s.leaving == s.totalOut
             <==> Wrapped(Sum(VerifiedValues(s.outputs))) <= Wrapped(Sum(Paid(p.transaction.value))))
  {
    JudgedTotals(c, p, key);
    FileTotals(c, p, Some(key));
    hide Sum, Fresh, VerifiedValues, Paid, Spent, Wrapped;
  }

  /** While the outputs fit 64 bits nothing wraps: change is what is verified and
      leaving is everything else. */
  lemma ChangeAndLeaving(c: Crypto, p: Psbt, key: Key)
    requires p.transaction.Some? && Sum(Paid(p.transaction.value)) < UINT64
    ensures var s := Fresh(c, p, Some(key));
            && s.totalOut == Sum(Paid(p.transaction.value))
            && s.verifiedChange == Sum(VerifiedValues(s.outputs))
            && s.leaving == Sum(OtherValues(s.outputs))
            && s.verifiedChange + s.leaving == s.totalOut
  {
    JudgedTotals(c, p, key);
    FileTotals(c, p, Some(key));
    var outputs := Fresh(c, p, Some(key)).outputs;
    SumSplits(outputs);
    WrappedSmall(Sum(Paid(p.transaction.value)));
    WrappedSmall(Sum(VerifiedValues(outputs)));
    hide Sum, Fresh, VerifiedValues, OutputValues, OtherValues, Paid, Spent, Wrapped;
  }

  lemma WrappedSmall(n: nat)
    ensures n < UINT64 ==> Wrapped(n) == n
  {
  }

  // --- what clearing the key restores ----------------------------------------------------------

  /** Clearing the key puts back the totals the file alone gives, and every label
      with them exactly when each output that an entry proved something about had a
      readable first entry to begin with. */
  lemma ClearingRestores(c: Crypto, p: Psbt, key: Key)
    requires p.transaction.Some?
    ensures var s, f := WithoutLabels(Fresh(c, p, Some(key))), Fresh(c, p, None);
            && s.inputs == f.inputs && s.totalOut == f.totalOut && s.totalIn == f.totalIn
            && s.signableInputs == f.signableInputs && s.verifiedChange == f.verifiedChange
            && s.leaving == f.leaving && s.ownershipChecked == f.ownershipChecked
            && |s.outputs| == |f.outputs|
    ensures var s, f := WithoutLabels(Fresh(c, p, Some(key))), Fresh(c, p, None);
            forall i | 0 <= i < |f.outputs| ::
              s.outputs[i].verdict.ownership == f.outputs[i].verdict.ownership <==> LabelRestored(c, p, key, i)
  {
    var tx := p.transaction.value;
    var s, f := WithoutLabels(Fresh(c, p, Some(key))), Fresh(c, p, None);
    var before := Inputs(p, tx);
    hide Judged, AmountOf;
    assert forall i | 0 <= i < |before| :: s.inputs[i] == before[i];
    forall i | 0 <= i < |f.outputs|
      ensures s.outputs[i].verdict.ownership == f.outputs[i].verdict.ownership <==> LabelRestored(c, p, key, i)
    {
      assert f.outputs[i] == OutputClaim(p, tx, i);
      assert s.outputs[i] == ClaimAgain(JudgedInfo(c, key, p, tx, OutputClaim(p, tx, i), i));
      if i < |p.outputs| && !IsOpReturn(tx.outputs[i].script) {
        ClaimKept(c.hashes, WalletOf(c, key), p.outputs[i], tx.outputs[i].script);
      }
    }
  }

  ghost predicate LabelRestored(c: Crypto, p: Psbt, key: Key, i: nat)
    requires p.transaction.Some? && i < |p.transaction.value.outputs|
  {
    (i < |p.outputs| && !IsOpReturn(p.transaction.value.outputs[i].script)) ==>
      Claim(p.outputs[i]).claimed.Some? || !AnyFollowed(WalletOf(c, key), Entries(p.outputs[i]))
  }

  lemma ClaimKept(h: Hashes, w: Wallet, o: PsbtOutput, spk: bytes)
    ensures Judged(h, w, o, spk, Claim(o)).claimed == None <==> Claim(o).claimed == None && !AnyFollowed(w, Entries(o))
    ensures Claim(o).ownership == if Claim(o).claimed == None then ThirdParty else Claimed
  {
    hide Label, FirstPath;
  }
}
