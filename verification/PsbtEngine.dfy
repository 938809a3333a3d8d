// The signing engine as the object it is: it keeps the file, shares one key slot
// with the rest of the process, and refreshes its summary in place.
module SigningEngine {
  import opened Wrappers
  import opened Sequences
  import opened Scripts
  import opened Outputs
  import opened Engine

  /** The one place where a master private key can be. */
  class KeySlot {
    var key: Option<Key>

    constructor ()
      ensures key == None
    {
      key := None;
    }
  }

  class PsbtEngine {
    const crypto: Crypto
    const slot: KeySlot
    var network: Network
    var psbt: Option<Psbt>
    var summary: Summary

    constructor (crypto: Crypto, slot: KeySlot, network: Network)
      ensures this.crypto == crypto && this.slot == slot
      ensures Now() == START(network).(key := slot.key) && Valid()
    {
      this.crypto, this.slot, this.network := crypto, slot, network;
      psbt, summary := None, EMPTY;
    }

    function Now(): State
      reads this, slot
    {
      State(network, psbt, slot.key, summary)
    }

    /** The summary is never out of date. */
    ghost predicate Valid()
      reads this, slot
    {
      UpToDate(crypto, Now())
    }

    // --- loading --------------------------------------------------------------------

    method Load(file: Option<Psbt>) returns (ok: bool)
      modifies this
      ensures Now() == Step(crypto, old(Now()), Event.Load(file)) && ok == file.Some?
      ensures old(Valid()) ==> Valid()
    {
      hide Fresh, SameFacts;
      if Valid() {
        StepKeepsUpToDate(crypto, Now(), Event.Load(file));
      }
      Unload();
      if file == None {
        return false;
      }
      psbt := file;
      Resummarise();
      return true;
    }

    method Unload()
      modifies this
      ensures Now() == Unloaded(old(Now()))
    {
      psbt, summary := None, EMPTY;
    }

    method SetNetwork(n: Network)
      modifies this
      ensures Now() == Step(crypto, old(Now()), Event.SetNetwork(n))
    {
      network := n;
    }

    // --- the summary ------------------------------------------------------------------

    method Resummarise()
      modifies this
      ensures Now() == Resummarised(crypto, old(Now()))
    {
      hide FileSummary, Evaluated, WithFindings;
      summary := EMPTY;
      if psbt == None {
        return;
      }
      var p := psbt.value;
      summary := summary.(alreadyFinalised := p.finalised);
      if p.transaction == None {
        summary := summary.(safeToSign := false, blockReason := Some(MissingFields));
        return;
      }
      var tx := p.transaction.value;
      var allAmountsKnown := SummariseInputs(p, tx);
      SummariseOutputs(p, tx);
      summary := summary.(feeKnown := allAmountsKnown && summary.totalIn >= summary.totalOut);
      if summary.feeKnown {
        summary := summary.(fee := summary.totalIn - summary.totalOut);
      }
      Assembled(p, tx, summary);
      EvaluateSignability(p, tx);
      DeriveFindings();
    }

    method SummariseInputs(p: Psbt, tx: Transaction) returns (allAmountsKnown: bool)
      requires summary.inputs == [] && summary.totalIn == 0 && summary.inputsWithDerivation == 0
      modifies this`summary
      ensures summary == old(summary).(inputs := Inputs(p, tx), totalIn := Wrapped(Sum(InputValues(Inputs(p, tx)))),
                                       inputsWithDerivation := CountDerivations(p.inputs))
      ensures allAmountsKnown == AllKnown(Inputs(p, tx))
    {
      hide Sum, CountDerivations, Wrapped, AmountOf, InputValues;
      ghost var infos := Inputs(p, tx);
      allAmountsKnown := true;
      NoInputsYet();
      assert infos[..0] == [] && p.inputs[..0] == [];
      for i := 0 to |p.inputs|
        invariant summary == old(summary).(inputs := infos[..i], totalIn := Wrapped(Sum(InputValues(infos[..i]))),
                                           inputsWithDerivation := CountDerivations(p.inputs[..i]))
        invariant allAmountsKnown == forall j | 0 <= j < i :: infos[j].amountKnown
      {
        var f := p.inputs[i].fields;
        var amount := AmountOf(f, tx, i);
        var info := InputInfo(ValueOr0(amount), amount.Some?, |p.inputs[i].signatures|, false);
        if !info.amountKnown {
          allAmountsKnown := false;
        }
        OneMoreInput(p.inputs, infos, i, info);
        if HasDerivation(f) {
          summary := summary.(inputsWithDerivation := summary.inputsWithDerivation + 1);
        }
        summary := summary.(totalIn := Wrapped(summary.totalIn + info.value));
        summary := summary.(inputs := summary.inputs + [info]);
      }
      assert infos[..|infos|] == infos && p.inputs[..|p.inputs|] == p.inputs;
    }

    method SummariseOutputs(p: Psbt, tx: Transaction)
      requires summary.outputs == [] && summary.totalOut == 0
      modifies this`summary
      ensures summary == old(summary).(outputs := OutputClaims(p, tx),
                                       totalOut := Wrapped(Sum(OutputValues(OutputClaims(p, tx)))))
    {
      hide Sum, Wrapped, Elements, OutputValues;
      ghost var infos := OutputClaims(p, tx);
      NoInputsYet();
      assert infos[..0] == [];
      for i := 0 to |tx.outputs|
        invariant summary == old(summary).(outputs := infos[..i], totalOut := Wrapped(Sum(OutputValues(infos[..i]))))
      {
        var info := OutputInfo(tx.outputs[i].value, false, UNCLAIMED);
        if IsOpReturn(tx.outputs[i].script) {
          info := info.(isOpReturn := true);
        }
        if i < |p.outputs| && !info.isOpReturn {
          var verdict := FirstClaim(p.outputs[i]);
          info := info.(verdict := verdict);
        }
        OneMoreOutput(infos, i, info);
        summary := summary.(totalOut := Wrapped(summary.totalOut + info.value));
        summary := summary.(outputs := summary.outputs + [info]);
      }
      assert infos[..|infos|] == infos;
    }

    static method FirstClaim(o: PsbtOutput) returns (v: Verdict)
      ensures v == Claim(o)
    {
      v := UNCLAIMED;
      var maps: seq<seq<Keypath>> := [o.keypaths, o.taprootPaths];
      for m := 0 to 2
        invariant v == UNCLAIMED
        invariant m >= 1 ==> |maps[0]| == 0 || maps[0][0].master == None
        invariant m >= 2 ==> |maps[1]| == 0 || maps[1][0].master == None
      {
        if |maps[m]| == 0 {
          continue;
        }
        if maps[m][0].master.Some? {
          return Verdict(Claimed, maps[m][0].master, Elements(maps[m][0]));
        }
      }
    }

    // --- what a key adds ----------------------------------------------------------------

    method EvaluateSignability(p: Psbt, tx: Transaction)
      requires |summary.inputs| == |p.inputs| && |summary.outputs| == |tx.outputs|
      requires forall i | 0 <= i < |summary.outputs| :: summary.outputs[i].verdict.ownership != Verified
      modifies this`summary
      ensures summary == Evaluated(crypto, slot.key, p, tx, old(summary))
    {
      hide Sum, CountSignable, Wrapped, VerifiedValues, JudgedOutputs, SignableInputs;
      summary := summary.(signableInputs := 0, verifiedChange := 0, leaving := summary.totalOut,
                          ownershipChecked := false);
      if slot.key == None {
        return;
      }
      var key := slot.key.value;
      summary := summary.(ownershipChecked := true);
      EvaluateInputs(p, key);
      EvaluateOutputs(p, tx, key);
      summary := summary.(leaving := if summary.totalOut >= summary.verifiedChange
                                     then summary.totalOut - summary.verifiedChange else 0);
    }

    method EvaluateInputs(p: Psbt, key: Key)
      requires |summary.inputs| == |p.inputs| && summary.signableInputs == 0
      modifies this`summary
      ensures summary == old(summary).(inputs := SignableInputs(crypto, key, p, old(summary).inputs),
                                       signableInputs := CountSignable(crypto, key, p.inputs))
    {
      hide CountSignable;
      ghost var infos := SignableInputs(crypto, key, p, summary.inputs);
      NoneSignable(crypto, key);
      assert p.inputs[..0] == [];
      var i := 0;
      while i < |summary.inputs| && i < |p.inputs|
        invariant i <= |p.inputs| == |summary.inputs|
        invariant forall j | 0 <= j < i :: summary.inputs[j] == infos[j]
        invariant forall j | i <= j < |p.inputs| :: summary.inputs[j] == old(summary).inputs[j]
        invariant summary == old(summary).(inputs := summary.inputs,
                                           signableInputs := CountSignable(crypto, key, p.inputs[..i]))
      {
        OneMoreSignable(crypto, key, p.inputs, i);
        if crypto.canSign(p.inputs[i], key) {
          summary := summary.(inputs := summary.inputs[i := summary.inputs[i].(canSign := true)],
                              signableInputs := summary.signableInputs + 1);
        }
        i := i + 1;
      }
      assert summary.inputs == infos && p.inputs[..i] == p.inputs;
    }

    method EvaluateOutputs(p: Psbt, tx: Transaction, key: Key)
      requires |summary.outputs| == |tx.outputs| && summary.verifiedChange == 0
      requires forall i | 0 <= i < |summary.outputs| :: summary.outputs[i].verdict.ownership != Verified
      modifies this`summary
      ensures var outputs := JudgedOutputs(crypto, key, p, tx, old(summary).outputs);
              summary == old(summary).(outputs := outputs, verifiedChange := Wrapped(Sum(VerifiedValues(outputs))))
    {
      hide Sum, Wrapped, Judged, VerifiedValues;
      ghost var claims := summary.outputs;
      ghost var infos := JudgedOutputs(crypto, key, p, tx, claims);
      NothingVerified(claims);
      var w := WalletOf(crypto, key);
      var i := 0;
      while i < |summary.outputs| && i < |p.outputs| && i < |tx.outputs|
        invariant i <= |summary.outputs| == |tx.outputs|
        invariant forall j | 0 <= j < i :: summary.outputs[j] == infos[j]
        invariant forall j | i <= j < |claims| :: summary.outputs[j] == claims[j]
        invariant summary == old(summary).(outputs := summary.outputs,
                                           verifiedChange := Wrapped(Sum(VerifiedValues(summary.outputs))))
      {
        var out := summary.outputs[i];
        if out.isOpReturn {
          i := i + 1;
          continue;
        }
        var verdict := JudgeOutput(crypto.hashes, w, p.outputs[i], tx.outputs[i].script, out.verdict);
        ghost var before := summary.outputs;
        out := out.(verdict := verdict);
        OneJudged(before, i, out);
        summary := summary.(outputs := summary.outputs[i := out]);
        if verdict.ownership == Verified {
          summary := summary.(verifiedChange := Wrapped(summary.verifiedChange + out.value));
        }
        i := i + 1;
      }
      assert summary.outputs == infos;
    }

    // --- whether signing is allowed --------------------------------------------------------

    /** A refusal, when there is cause for it; the first one gives the reason. */
    method Block(cause: bool, reason: Reason)
      modifies this`summary
      ensures summary == Blocked(old(summary), cause, reason)
    {
      if cause {
        summary := summary.(safeToSign := false);
        if summary.blockReason == None {
          summary := summary.(blockReason := Some(reason));
        }
      }
    }

    method DeriveFindings()
      modifies this`summary
      ensures summary == WithFindings(old(summary), slot.key.Some?)
    {
      hide AllKnown, AnyMismatch;
      summary := summary.(safeToSign := true, blockReason := None);
      Block(summary.inputs == [], NoInputs);
      Block(summary.outputs == [], NoOutputs);
      Block(summary.alreadyFinalised, AlreadyFinalised);
      var missing := CountMissing(summary.inputs);
      Block(missing > 0, MissingUtxo);
      Block(summary.totalOut > summary.totalIn && missing == 0, OutputsExceedInputs);
      Block(summary.inputs != [] && summary.inputsWithDerivation == 0, NoDerivationPaths);
      if slot.key.Some? {
        BlockMismatches();
      }
    }

    /** Every output that falsely poses as change is a refusal of its own. */
    method BlockMismatches()
      modifies this`summary
      ensures summary == Blocked(old(summary), AnyMismatch(old(summary).outputs), ChangeMismatch)
    {
      ghost var s := summary;
      var i := 0;
      while i < |summary.outputs|
        invariant i <= |summary.outputs| && summary.outputs == s.outputs
        invariant summary == Blocked(s, exists j :: 0 <= j < i && s.outputs[j].verdict.ownership == Mismatch,
                                     ChangeMismatch)
      {
        Block(summary.outputs[i].verdict.ownership == Mismatch, ChangeMismatch);
        i := i + 1;
      }
    }

    static method CountMissing(inputs: seq<InputInfo>) returns (missing: nat)
      ensures missing == 0 <==> AllKnown(inputs)
    {
      missing := 0;
      for i := 0 to |inputs|
        invariant missing == 0 <==> forall j | 0 <= j < i :: inputs[j].amountKnown
      {
        if !inputs[i].amountKnown {
          missing := missing + 1;
        }
      }
    }

    // --- keys ---------------------------------------------------------------------------------

    method ClearKey()
      modifies this, slot
      ensures Now() == Cleared(old(Now()))
      ensures old(Valid()) ==> Valid()
    {
      if Valid() {
        ClearedUpToDate(crypto, Now());
      }
      hide UpToDate;
      slot.key := None;
      var i := 0;
      ghost var s := summary;
      while i < |summary.inputs|
        invariant i <= |summary.inputs| == |s.inputs| && summary == s.(inputs := summary.inputs)
        invariant forall j | 0 <= j < i :: summary.inputs[j] == s.inputs[j].(canSign := false)
        invariant forall j | i <= j < |s.inputs| :: summary.inputs[j] == s.inputs[j]
        modifies this`summary
      {
        summary := summary.(inputs := summary.inputs[i := summary.inputs[i].(canSign := false)]);
        i := i + 1;
      }
      i := 0;
      while i < |summary.outputs|
        invariant i <= |summary.outputs| == |s.outputs|
        invariant summary == s.(inputs := WithoutLabels(s).inputs, outputs := summary.outputs)
        invariant forall j | 0 <= j < i :: summary.outputs[j] == ClaimAgain(s.outputs[j])
        invariant forall j | i <= j < |s.outputs| :: summary.outputs[j] == s.outputs[j]
        modifies this`summary
      {
        summary := summary.(outputs := summary.outputs[i := ClaimAgain(summary.outputs[i])]);
        i := i + 1;
      }
      summary := summary.(signableInputs := 0, verifiedChange := 0, leaving := summary.totalOut,
                          ownershipChecked := false);
      assert summary.outputs == WithoutLabels(s).outputs;
    }

    method SetKeyFromMnemonic(mnemonic: string, passphrase: string) returns (ok: bool)
      modifies this, slot
      ensures Now() == Step(crypto, old(Now()), SetMnemonic(mnemonic, passphrase))
      ensures ok == slot.key.Some? && (old(Valid()) ==> Valid())
    {
      hide Fresh, WithoutLabels, SameFacts;
      if Valid() {
        StepKeepsUpToDate(crypto, Now(), SetMnemonic(mnemonic, passphrase));
      }
      ClearKey();
      if !crypto.validMnemonic(mnemonic) {
        return false;
      }
      var key := crypto.masterFromMnemonic(mnemonic, passphrase, network == Mainnet);
      if key == None {
        slot.key := None;
        return false;
      }
      slot.key := key;
      if psbt.Some? {
        Resummarise();
      }
      return true;
    }

    method SetKeyFromXprv(xprv: string) returns (ok: bool)
      modifies this, slot
      ensures Now() == Step(crypto, old(Now()), SetXprv(xprv))
      ensures ok == slot.key.Some? && (old(Valid()) ==> Valid())
    {
      hide Fresh, WithoutLabels, SameFacts;
      if Valid() {
        StepKeepsUpToDate(crypto, Now(), SetXprv(xprv));
      }
      ClearKey();
      var key := crypto.keyFromXprv(xprv);
      if key == None {
        slot.key := None;
        return false;
      }
      if !key.value.isPrivate {
        slot.key := None;
        return false;
      }
      slot.key := key;
      if psbt.Some? {
        Resummarise();
      }
      return true;
    }

    // --- signing ------------------------------------------------------------------------------

    /** A signature is reported only for a file that is safe for the key in the slot, at
        a fee that is the true one unless the totals wrapped around. */
    method Sign() returns (added: Option<nat>)
      modifies this
      ensures Now() == Step(crypto, old(Now()), Event.Sign)
      ensures added == SignaturesAdded(crypto, old(Now()))
      ensures added == None ==> Now() == old(Now())
      ensures old(Valid()) ==> Valid()
      ensures old(Valid()) && added.Some? ==>
        var s := old(Now());
        && s.psbt.Some? && s.key.Some? && s.summary.feeKnown
        && SafeFor(crypto, s.psbt.value, s.key.value) && TotalsAsShown(s.psbt.value, s.summary.fee)
    {
      hide Fresh, Signatures, SameFacts, SafeFor, TotalsAsShown;
      SignPromises(crypto, Now());
      if psbt == None {
        return None;
      }
      if slot.key == None {
        return None;
      }
      if !summary.safeToSign {
        return None;
      }
      if summary.signableInputs == 0 {
        return None;
      }
      var before := CountSignatures(psbt.value.inputs);
      var made := crypto.newSignatures(psbt.value, slot.key.value);
      if made == None {
        return None;
      }
      psbt := Some(Signed(psbt.value, made.value));
      var after := CountSignatures(psbt.value.inputs);
      if after <= before {
        return None;
      }
      added := Some(after - before);
      Resummarise();
    }
  }

  lemma SignPromises(c: Crypto, s: State)
    ensures SignaturesAdded(c, s) == None ==> AfterSign(c, s) == s
    ensures UpToDate(c, s) ==> UpToDate(c, AfterSign(c, s))
    ensures UpToDate(c, s) && SignaturesAdded(c, s).Some? ==>
      s.psbt.Some? && s.key.Some? && s.summary.feeKnown
      && SafeFor(c, s.psbt.value, s.key.value) && TotalsAsShown(s.psbt.value, s.summary.fee)
  {
    if SignaturesAdded(c, s) == None {
      SilentSigning(c, s);
    }
    if UpToDate(c, s) {
      SignUpToDate(c, s);
      if MaySign(s) {
        MaySignIsSafe(c, s);
      }
    }
    hide UpToDate, AfterSign, SafeFor, TotalsAsShown, Signatures;
  }

  function Blocked(s: Summary, cause: bool, reason: Reason): Summary {
    if !cause then s
    else s.(safeToSign := false, blockReason := if s.blockReason == None then Some(reason) else s.blockReason)
  }

  method CountSignatures(inputs: seq<PsbtInput>) returns (n: nat)
    ensures n == Signatures(inputs)
  {
    n := 0;
    assert inputs[..0] == [];
    for i := 0 to |inputs|
      invariant n == Signatures(inputs[..i])
    {
      assert inputs[..i + 1][..i] == inputs[..i];
      n := n + |inputs[i].signatures|;
    }
    assert inputs[..|inputs|] == inputs;
  }

  // --- one more element -------------------------------------------------------------------------

  lemma NoInputsYet()
    ensures Wrapped(Sum(InputValues([]))) == 0 && Wrapped(Sum(OutputValues([]))) == 0 && CountDerivations([]) == 0
  {
  }

  lemma OneMoreInput(inputs: seq<PsbtInput>, infos: seq<InputInfo>, i: nat, info: InputInfo)
    requires i < |inputs| == |infos| && info == infos[i]
    ensures infos[..i + 1] == infos[..i] + [info]
    ensures Wrapped(Sum(InputValues(infos[..i + 1]))) == Wrapped(Wrapped(Sum(InputValues(infos[..i]))) + info.value)
    ensures CountDerivations(inputs[..i + 1])
         == CountDerivations(inputs[..i]) + if HasDerivation(inputs[i].fields) then 1 else 0
  {
    hide Sum, Wrapped;
    assert inputs[..i + 1][..i] == inputs[..i];
    assert infos[..i + 1] == infos[..i] + [info];
    assert InputValues(infos[..i + 1]) == InputValues(infos[..i]) + [info.value as nat];
    SumSnoc(InputValues(infos[..i]), info.value);
    WrappedAdd(Sum(InputValues(infos[..i])), info.value);
  }

  lemma OneMoreOutput(infos: seq<OutputInfo>, i: nat, info: OutputInfo)
    requires i < |infos| && info == infos[i]
    ensures infos[..i + 1] == infos[..i] + [info]
    ensures Wrapped(Sum(OutputValues(infos[..i + 1]))) == Wrapped(Wrapped(Sum(OutputValues(infos[..i]))) + info.value)
  {
    hide Sum, Wrapped;
    assert infos[..i + 1] == infos[..i] + [info];
    assert OutputValues(infos[..i + 1]) == OutputValues(infos[..i]) + [info.value as nat];
    SumSnoc(OutputValues(infos[..i]), info.value);
    WrappedAdd(Sum(OutputValues(infos[..i])), info.value);
  }

  lemma NoneSignable(c: Crypto, key: Key)
    ensures CountSignable(c, key, []) == 0
  {
  }

  lemma OneMoreSignable(c: Crypto, key: Key, inputs: seq<PsbtInput>, i: nat)
    requires i < |inputs|
    ensures CountSignable(c, key, inputs[..i + 1])
         == CountSignable(c, key, inputs[..i]) + if c.canSign(inputs[i], key) then 1 else 0
  {
    assert inputs[..i + 1][..i] == inputs[..i];
  }

  lemma {:induction false} SumUpdate(s: seq<nat>, i: nat, n: nat)
    requires i < |s|
    ensures Sum(s[i := n]) == Sum(s) - s[i] + n
    decreases |s|
  {
    var init, last := SplitLast(s);
    if i == |init| {
      assert s[i := n] == init + [n];
      SumSnoc(init, last);
      SumSnoc(init, n);
    } else {
      assert s[i := n] == init[i := n] + [last];
      SumUpdate(init, i, n);
      SumSnoc(init, last);
      SumSnoc(init[i := n], last);
    }
  }

  lemma {:induction false} SumOfZeros(s: seq<nat>)
    requires forall i | 0 <= i < |s| :: s[i] == 0
    ensures Sum(s) == 0
  {
    if s != [] {
      SumOfZeros(s[..|s| - 1]);
    }
  }

  lemma NothingVerified(infos: seq<OutputInfo>)
    requires forall i | 0 <= i < |infos| :: infos[i].verdict.ownership != Verified
    ensures Wrapped(Sum(VerifiedValues(infos))) == 0
  {
    SumOfZeros(VerifiedValues(infos));
  }

  /** Judging an output that was not verified before adds its amount, if at all. */
  lemma OneJudged(infos: seq<OutputInfo>, i: nat, info: OutputInfo)
    requires i < |infos| && infos[i].verdict.ownership != Verified && info.value == infos[i].value
    ensures var change := Wrapped(Sum(VerifiedValues(infos)));
            Wrapped(Sum(VerifiedValues(infos[i := info])))
            == if info.verdict.ownership == Verified then Wrapped(change + info.value) else change
  {
    hide Sum, Wrapped;
    assert VerifiedValues(infos[i := info]) == VerifiedValues(infos)[i := IfVerified(info)];
    SumUpdate(VerifiedValues(infos), i, IfVerified(info));
    WrappedAdd(Sum(VerifiedValues(infos)), IfVerified(info));
  }

  lemma Assembled(p: Psbt, tx: Transaction, s: Summary)
    requires s.inputs == Inputs(p, tx) && s.outputs == OutputClaims(p, tx)
    requires s.totalIn == Wrapped(Sum(InputValues(s.inputs))) && s.totalOut == Wrapped(Sum(OutputValues(s.outputs)))
    requires s.feeKnown == (AllKnown(s.inputs) && s.totalIn >= s.totalOut)
    requires s.fee == if s.feeKnown then s.totalIn - s.totalOut else 0
    requires s.inputsWithDerivation == CountDerivations(p.inputs) && s.alreadyFinalised == p.finalised
    requires EMPTY == s.(inputs := [], outputs := [], totalIn := 0, totalOut := 0, feeKnown := false, fee := 0,
                         inputsWithDerivation := 0, alreadyFinalised := false)
    ensures s == FileSummary(p, tx)
    ensures forall i | 0 <= i < |s.outputs| :: s.outputs[i].verdict.ownership != Verified
  {
    hide Sum, Wrapped, CountDerivations, AmountOf;
  }
}
