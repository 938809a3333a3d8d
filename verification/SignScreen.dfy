// The signing screen as the object it is: handlers that edit the shared buffers,
// its own fields and, through the engine, the key slot.
module SignScreens {
  import opened Wrappers
  import opened SlotText
  import opened SecureText
  import opened SecretBuffers
  import opened Mnemonics
  import opened SigningEngine
  import opened SignWizard

  class SignScreen {
    const buffers: Buffers
    const engine: PsbtEngine
    var shown: bool
    var page: Page
    var field: Field
    var source: Source
    var keyChecked: bool
    ghost var signings: seq<Signing>

    /** What a handler can rely on in the middle of its work. */
    ghost predicate Intact()
      reads this, buffers, buffers.mnemonic, buffers.passphrase, buffers.verification, buffers.confirmation
      reads buffers.mnemonic.buf, buffers.passphrase.buf, buffers.verification.buf, buffers.confirmation.buf
    {
      buffers.Valid()
    }

    ghost function Now(): State
      requires Intact()
      reads this, engine, engine.slot
      reads buffers, buffers.mnemonic, buffers.passphrase, buffers.verification, buffers.confirmation
      reads buffers.mnemonic.buf, buffers.passphrase.buf, buffers.verification.buf, buffers.confirmation.buf
    {
      State(shown, page, field, source, buffers.Contents(), keyChecked, engine.Now(), signings)
    }

    /** What holds between events: the invariant of the machine, the engine's included. */
    ghost predicate Valid()
      reads this, engine, engine.slot
      reads buffers, buffers.mnemonic, buffers.passphrase, buffers.verification, buffers.confirmation
      reads buffers.mnemonic.buf, buffers.passphrase.buf, buffers.verification.buf, buffers.confirmation.buf
    {
      Intact() && Sound(engine.crypto, Now())
    }

    constructor (buffers: Buffers, engine: PsbtEngine)
      requires buffers.Valid() && engine.Valid()
      ensures this.buffers == buffers && this.engine == engine && Valid()
      ensures Now() == START(engine.network).(texts := buffers.Contents(), engine := engine.Now())
    {
      this.buffers, this.engine := buffers, engine;
      shown, page, field, source, keyChecked, signings := false, Entry, Key, Words, false, [];
    }

    // --- fields -----------------------------------------------------------------------

    method RefreshDisplays()
      requires Intact()
      modifies this, buffers.confirmation, buffers.confirmation.buf
      ensures Intact() && Now() == Displayed(old(Now()))
    {
      hide PsbtEngine.Now;
      if source == Words && buffers.passphrase.len > 0 {
        return;
      }
      if buffers.confirmation.len > 0 {
        buffers.confirmation.Clear();
      }
      if field == Again {
        field := Passphrase;
      }
    }

    method SetField(f: Field)
      requires Intact()
      modifies this, buffers.confirmation, buffers.confirmation.buf
      ensures Intact() && Now() == FieldSet(old(Now()), f)
    {
      hide PsbtEngine.Now, Displayed;
      var g := f;
      if g == Again && (source != Words || buffers.passphrase.len == 0) {
        g := Passphrase;
      }
      if g == Passphrase && source != Words {
        g := Key;
      }
      field := g;
      RefreshDisplays();
    }

    method SetKeySource(x: Source)
      requires Intact()
      modifies this, buffers.mnemonic, buffers.mnemonic.buf, buffers.confirmation, buffers.confirmation.buf
      ensures Intact() && Now() == SourceSet(old(Now()), x)
    {
      hide PsbtEngine.Now, FieldSet;
      if source != x {
        buffers.mnemonic.Clear();
        keyChecked := false;
      }
      source := x;
      if x == Xprv && field == Passphrase {
        SetField(Key);
      } else {
        SetField(field);
      }
    }

    // --- typing -----------------------------------------------------------------------

    /** The buffer the next keystroke lands in. */
    function ActiveBuffer(): SecureString
      reads this, buffers
    {
      match field
      case Key => buffers.mnemonic
      case Passphrase => buffers.passphrase
      case Again => buffers.confirmation
    }

    method TypeCharacter(c: char)
      requires Intact()
      modifies this, engine, engine.slot, buffers.mnemonic, buffers.passphrase, buffers.confirmation
      modifies buffers.mnemonic.buf, buffers.passphrase.buf, buffers.confirmation.buf
      ensures Intact() && Now() == Typed(old(Now()), c)
    {
      hide PsbtEngine.Now, Displayed, Appended, Fits, IsAllowed, E.Cleared, Active, WithActive;
      hide Buffers.Valid, Buffers.Contents, SecureString.Valid, SecureString.Text;
      if page == Name {
        return;
      }
      var allowed := CharacterAllowed(c);
      if !allowed {
        return;
      }
      if keyChecked {
        keyChecked := false;
        engine.ClearKey();
      }
      var ok := AppendActive(c);
      if !ok {
        return;
      }
      RefreshDisplays();
    }

    method AppendActive(c: char) returns (ok: bool)
      requires Intact()
      modifies buffers.mnemonic, buffers.passphrase, buffers.confirmation
      modifies buffers.mnemonic.buf, buffers.passphrase.buf, buffers.confirmation.buf
      ensures Intact() && ok == Fits(Active(old(Now())), 1)
      ensures Now() == if ok then WithActive(old(Now()), Appended(Active(old(Now())), [c])) else old(Now())
    {
      hide PsbtEngine.Now, Appended, Fits;
      ok := ActiveBuffer().Append(c);
      if !ok {
        RefusedAppend(Active(old(Now())), [c]);
      }
    }

    method CharacterAllowed(c: char) returns (allowed: bool)
      requires Intact()
      ensures allowed == IsAllowed(Now(), c)
    {
      if field != Key {
        allowed := IsPrintable(c);
      } else if source == Words {
        allowed := IsLetter(c) || c == ' ';
      } else {
        allowed := IsBase58(c);
      }
    }

    method Backspace()
      requires Intact()
      modifies this, buffers.mnemonic, buffers.passphrase, buffers.confirmation
      modifies buffers.mnemonic.buf, buffers.passphrase.buf, buffers.confirmation.buf
      ensures Intact() && Now() == Edited(old(Now()), Backspaced(Active(old(Now()))))
    {
      hide PsbtEngine.Now, Displayed, Backspaced;
      if page == Name {
        return;
      }
      ActiveBuffer().Backspace();
      keyChecked := false;
      RefreshDisplays();
    }

    method DeleteWord()
      requires Intact()
      modifies this, buffers.mnemonic, buffers.passphrase, buffers.confirmation
      modifies buffers.mnemonic.buf, buffers.passphrase.buf, buffers.confirmation.buf
      ensures Intact() && Now() == Edited(old(Now()), WordBackspaced(Active(old(Now()))))
    {
      hide PsbtEngine.Now, Displayed, WordBackspaced;
      if page == Name {
        return;
      }
      ActiveBuffer().BackspaceWord();
      keyChecked := false;
      RefreshDisplays();
    }

    method ClearAll()
      requires Intact()
      modifies this, buffers.mnemonic, buffers.passphrase, buffers.confirmation
      modifies buffers.mnemonic.buf, buffers.passphrase.buf, buffers.confirmation.buf
      ensures Intact() && Now() == Edited(old(Now()), "")
    {
      hide PsbtEngine.Now, Displayed;
      if page == Name {
        return;
      }
      ActiveBuffer().Clear();
      keyChecked := false;
      RefreshDisplays();
    }

    method ApplySuggestion(word: string)
      requires Intact()
      modifies this, buffers.mnemonic, buffers.mnemonic.buf, buffers.confirmation, buffers.confirmation.buf
      ensures Intact() && Now() == SignWizard.SuggestionApplied(old(Now()), word)
    {
      hide PsbtEngine.Now, Displayed, Appended, WordBackspaced;
      hide Buffers.Valid, Buffers.Contents, SecureString.Valid, SecureString.Text;
      if word == "" {
        return;
      }
      EnterWord(word);
      keyChecked := false;
      RefreshDisplays();
    }

    /** The word takes the place of the one being typed. */
    method EnterWord(word: string)
      requires Intact()
      modifies buffers.mnemonic, buffers.mnemonic.buf
      ensures Intact()
      ensures var t := old(Now()).texts;
              Now() == old(Now()).(texts := t.(mnemonic := Appended(Appended(WordBackspaced(t.mnemonic), word), " ")))
    {
      hide PsbtEngine.Now, Appended, WordBackspaced;
      buffers.mnemonic.BackspaceWord();
      var _ := buffers.mnemonic.AppendText(word);
      var _ := buffers.mnemonic.AppendText(" ");
    }

    // --- the gate --------------------------------------------------------------------------

    method IsPassphraseReady() returns (ready: bool)
      requires Intact()
      modifies this, buffers.confirmation, buffers.confirmation.buf
      ensures Intact() && ready == PassphraseReady(old(source), old(Now()).texts)
      ensures Now() == if ready then old(Now()) else FieldSet(old(Now()), Again)
    {
      hide PsbtEngine.Now, FieldSet;
      if source != Words || buffers.passphrase.len == 0 {
        return true;
      }
      var same := buffers.PassphraseConfirmed();
      if !same {
        SetField(Again);
        return false;
      }
      return true;
    }

    method CheckKey()
      requires Intact()
      modifies this, engine, engine.slot, buffers.mnemonic, buffers.mnemonic.buf
      modifies buffers.confirmation, buffers.confirmation.buf
      ensures Intact() && Now() == Checked(engine.crypto, old(Now()))
    {
      hide PsbtEngine.Now, FieldSet, Normalised, Derived;
      keyChecked := false;
      if buffers.mnemonic.len == 0 {
        return;
      }
      ghost var t := Now();
      assert t.texts.mnemonic != "";
      var ready := IsPassphraseReady();
      if !ready {
        return;
      }
      buffers.mnemonic.NormaliseWhitespace();
      assert Now() == t.(texts := t.texts.(mnemonic := Normalised(t.texts.mnemonic)));
      Derive();
    }

    /** The key of the buffers as they are goes into the slot. */
    method Derive()
      requires Intact() && !keyChecked
      modifies this, engine, engine.slot
      ensures Intact() && Now() == Derived(engine.crypto, old(Now()))
    {
      hide E.WithKey, E.MnemonicKey, E.XprvKey;
      var text := buffers.mnemonic.buf[..buffers.mnemonic.len];
      var ok;
      if source == Words {
        var passphrase := buffers.passphrase.buf[..buffers.passphrase.len];
        ok := engine.SetKeyFromMnemonic(text, passphrase);
      } else {
        ok := engine.SetKeyFromXprv(text);
      }
      KeyAfter(engine.crypto, old(engine.Now()), KeyOf(engine.crypto, old(engine.Now()), source, old(Now()).texts));
      if !ok {
        return;
      }
      keyChecked := engine.summary.signableInputs > 0;
    }

    method ShowConfirm()
      requires Intact()
      modifies this
      ensures Intact() && Now() == old(Now()).(page := if keyChecked then Confirm else old(page))
      ensures keyChecked == old(keyChecked)
    {
      if !keyChecked {
        return;
      }
      page := Confirm;
    }

    method WipeSecrets()
      requires Intact()
      modifies this, engine, engine.slot
      modifies buffers.mnemonic, buffers.passphrase, buffers.verification, buffers.confirmation
      modifies buffers.mnemonic.buf, buffers.passphrase.buf, buffers.verification.buf, buffers.confirmation.buf
      ensures Intact() && Now() == Wiped(old(Now()))
    {
      hide PsbtEngine.Now, E.Cleared, Buffers.Valid, Buffers.Contents, SecureString.Valid, SecureString.Text;
      buffers.WipeAll();
      engine.ClearKey();
      keyChecked := false;
    }

    /** A signature is made only with the key of the text in the buffers, for a file that
        is safe for it, at a fee that is true unless the totals wrapped around; and then
        neither the text nor the key is left. */
    method DoSign()
      requires Valid()
      modifies this, engine, engine.slot
      modifies buffers.mnemonic, buffers.passphrase, buffers.verification, buffers.confirmation
      modifies buffers.mnemonic.buf, buffers.passphrase.buf, buffers.verification.buf, buffers.confirmation.buf
      ensures Valid() && Now() == SignedNow(engine.crypto, old(Now()))
      ensures signings != old(signings) ==>
        var s := old(Now());
        && s.engine.key.Some? && s.engine.psbt.Some?
        && signings == old(signings) + [SigningOf(s)] && Proper(engine.crypto, SigningOf(s))
        && Now().texts == WIPED && Now().engine.key == None
    {
      hide E.AfterSign, E.Cleared, E.SignCall, E.Resummarised, E.WithKey, E.SafeFor, E.TotalsAsShown, E.UpToDate;
      hide Displayed, Sound, Proper;
      hide Buffers.Valid, Buffers.Contents, SecureString.Valid, SecureString.Text;
      SigningPromises(engine.crypto, Now());
      if !keyChecked {
        return;
      }
      ghost var s := Now();
      var added := engine.Sign();
      if added == None {
        return;
      }
      CallNeedsKey(engine.crypto, s.engine);
      signings := signings + [SigningOf(s)];
      WipeSecrets();
      page := Name;
      RefreshDisplays();
    }

    // --- which event does what -------------------------------------------------------------

    method OnEnter()
      requires Valid() && !shown
      modifies this, buffers.mnemonic, buffers.mnemonic.buf, buffers.confirmation, buffers.confirmation.buf
      ensures Valid() && Now() == Step(engine.crypto, old(Now()), Enter)
    {
      hide PsbtEngine.Now, FieldSet, SourceSet, Displayed;
      hide Buffers.Valid, Buffers.Contents, SecureString.Valid, SecureString.Text;
      hide Sound;
      StepKeepsSound(engine.crypto, Now(), Enter);
      shown, page, keyChecked := true, Entry, false;
      SetField(Key);
      SetKeySource(Words);
      RefreshDisplays();
    }

    method EntryEvent(e: Event)
      requires Intact()
      modifies this, engine, engine.slot
      modifies buffers.mnemonic, buffers.passphrase, buffers.verification, buffers.confirmation
      modifies buffers.mnemonic.buf, buffers.passphrase.buf, buffers.verification.buf, buffers.confirmation.buf
      ensures Intact() && Now() == OnEntry(engine.crypto, old(Now()), e)
    {
      hide PsbtEngine.Now, FieldSet, SourceSet, Checked;
      hide Buffers.Valid, Buffers.Contents, SecureString.Valid, SecureString.Text;
      if e.PickSource? {
        SetKeySource(e.source);
      } else if e.PickField? {
        SetField(e.field);
      } else if e.NextField? && source == Words {
        var next := NextFieldOf();
        SetField(next);
      } else if e.CheckKey? {
        CheckKey();
      } else if e.Review? {
        ShowConfirm();
      }
    }

    method NextFieldOf() returns (next: Field)
      requires Intact()
      ensures next == FieldAfter(Now())
    {
      match field {
        case Key => next := Passphrase;
        case Passphrase => next := if buffers.passphrase.len == 0 then Key else Again;
        case Again => next := Key;
      }
    }

    method TypingEvent(e: Event)
      requires Intact() && (e.Char? || e.Backspace? || e.DeleteWord? || e.ClearAll? || e.Suggestion?)
      modifies this, engine, engine.slot
      modifies buffers.mnemonic, buffers.passphrase, buffers.verification, buffers.confirmation
      modifies buffers.mnemonic.buf, buffers.passphrase.buf, buffers.verification.buf, buffers.confirmation.buf
      ensures Intact() && Now() == Handled(engine.crypto, old(Now()), e)
    {
      hide PsbtEngine.Now, Typed, Edited, SignWizard.SuggestionApplied, Active, Backspaced, WordBackspaced;
      hide Buffers.Valid, Buffers.Contents, SecureString.Valid, SecureString.Text;
      if e.Char? {
        TypeCharacter(e.c);
      } else if e.Backspace? {
        Backspace();
      } else if e.DeleteWord? {
        DeleteWord();
      } else if e.ClearAll? {
        ClearAll();
      } else {
        ApplySuggestion(e.word);
      }
    }

    /** Everything that can happen while the screen is up. */
    method Handle(e: Event)
      requires Valid() && shown && !e.Enter? && !e.Elsewhere?
      modifies this, engine, engine.slot
      modifies buffers.mnemonic, buffers.passphrase, buffers.verification, buffers.confirmation
      modifies buffers.mnemonic.buf, buffers.passphrase.buf, buffers.verification.buf, buffers.confirmation.buf
      ensures Valid() && Now() == Step(engine.crypto, old(Now()), e)
    {
      hide PsbtEngine.Now, Typed, Edited, SignWizard.SuggestionApplied, Wiped, SignedNow, OnEntry, Active;
      hide Buffers.Valid, Buffers.Contents, SecureString.Valid, SecureString.Text;
      hide Sound, Proper;
      StepKeepsSound(engine.crypto, Now(), e);
      if e.Char? || e.Backspace? || e.DeleteWord? || e.ClearAll? || e.Suggestion? {
        TypingEvent(e);
      } else if e.Leave? {
        WipeSecrets();
        shown := false;
      } else if e.SignNow? {
        if page == Confirm {
          DoSign();
        }
      } else if e.ConfirmBack? {
        page := if page == Confirm then Entry else page;
      } else if e.Write? {
        page := if page == Name && e.written then Result else page;
      } else if page == Entry {
        EntryEvent(e);
      }
    }
  }

  lemma RefusedAppend(t: string, s: string)
    ensures !Fits(t, |s|) ==> Appended(t, s) == t
  {
  }

  lemma KeyAfter(c: E.Crypto, s: E.State, key: Option<E.Key>)
    ensures E.WithKey(c, s, key).key == key
  {
    hide E.Fresh;
  }

  lemma SigningPromises(c: E.Crypto, s: State)
    requires Sound(c, s)
    ensures Sound(c, SignedNow(c, s))
    ensures s.keyChecked && E.SignaturesAdded(c, s.engine).Some? ==>
      && s.engine.key.Some? && s.engine.psbt.Some? && Proper(c, SigningOf(s))
      && SignedNow(c, s).texts == WIPED && SignedNow(c, s).engine.key == None
      && SignedNow(c, s).signings == s.signings + [SigningOf(s)]
  {
    SignedSound(c, s);
    if s.keyChecked && E.SignaturesAdded(c, s.engine).Some? {
      CallNeedsKey(c, s.engine);
      SigningProper(c, s);
    }
    hide Sound, Proper, E.AfterSign, E.SignaturesAdded;
  }

  lemma CallNeedsKey(c: E.Crypto, s: E.State)
    ensures E.SignaturesAdded(c, s).Some? ==> s.key.Some? && s.psbt.Some?
  {
  }
}
