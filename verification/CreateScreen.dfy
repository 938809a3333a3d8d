// The wallet creation screen as the object it is: handlers that edit the shared
// buffers and its own fields in place, each one a step of the wizard.
module CreateScreens {
  import opened Wrappers
  import opened SlotText
  import opened SecureText
  import opened SecretBuffers
  import opened Mnemonics
  import opened Grid
  import opened SigningEngine
  import opened WalletExports
  import opened CreateWizard

  class CreateScreen {
    const buffers: Buffers
    const lib: Library
    const slot: KeySlot
    const physical: bool
    var shown: bool
    var page: Page
    var cursor: nat
    var verified: bool
    var confirming: bool
    var keys: bool
    var offered: string
    var row: string
    var wordCount: nat
    ghost var generated: string
    var wallet: Option<WalletExport>

    /** What a handler can rely on in the middle of its work. */
    ghost predicate Intact()
      reads this, buffers, buffers.mnemonic, buffers.passphrase, buffers.verification, buffers.confirmation
      reads buffers.mnemonic.buf, buffers.passphrase.buf, buffers.verification.buf, buffers.confirmation.buf
    {
      buffers.Valid()
    }

    ghost function Now(): State
      requires Intact()
      reads this, buffers, buffers.mnemonic, buffers.passphrase, buffers.verification, buffers.confirmation
      reads buffers.mnemonic.buf, buffers.passphrase.buf, buffers.verification.buf, buffers.confirmation.buf
    {
      State(physical, shown, page, buffers.Contents(), cursor, verified, confirming, keys, offered, row, wordCount,
            generated, wallet)
    }

    /** What holds between events: the invariant of the wizard. */
    ghost predicate Valid()
      reads this, buffers, buffers.mnemonic, buffers.passphrase, buffers.verification, buffers.confirmation
      reads buffers.mnemonic.buf, buffers.passphrase.buf, buffers.verification.buf, buffers.confirmation.buf
    {
      Intact() && Sound(lib, Now())
    }

    constructor (buffers: Buffers, lib: Library, slot: KeySlot, physical: bool)
      requires buffers.Valid()
      ensures this.buffers == buffers && this.lib == lib && this.slot == slot && Valid()
      ensures Now() == START(physical).(texts := buffers.Contents())
    {
      this.buffers, this.lib, this.slot, this.physical := buffers, lib, slot, physical;
      shown, page, cursor, verified, confirming, keys, wordCount := false, Intro, 0, false, false, false, 12;
      offered, row, generated, wallet := "", "", "", None;
    }

    // --- the verification page ---------------------------------------------------

    /** The verdict is computed anew after every edit. */
    method RefreshVerdict()
      requires Intact()
      modifies this`cursor, this`verified
      ensures Intact()
      ensures var s := old(Now()); var total := Cells(s);
              Now() == s.(cursor := if s.cursor >= total then (if total == 0 then 0 else total - 1) else s.cursor,
                          verified := Complete(Slots(s.texts.retyped), Slots(s.texts.mnemonic)))
    {
      hide Slots, Words, Complete;
      var total := buffers.mnemonic.WordCount();
      if cursor >= total {
        cursor := if total == 0 then 0 else total - 1;
      }
      var m := CompareGrid(buffers.verification, buffers.mnemonic, cursor);
      verified := m.complete;
    }

    method RefreshVerify()
      requires Intact()
      modifies this
      ensures Intact() && Now() == Refreshed(old(Now()))
    {
      hide Slots, Words, Complete, Prefix, Buffers.Valid, Buffers.Contents;
      RefreshVerdict();
      RefreshSuggestions();
    }

    static method CopyOfCell(typed: SecureString, i: nat) returns (cell: string)
      requires typed.Valid()
      ensures cell == Prefix(typed.Text(), i)
    {
      hide Slots;
      var copy := new char[MAX_WORD_LENGTH + 2];
      var n := typed.CopySlot(i, copy);
      cell := copy[..n];
    }

    /** The cell being typed goes to the floating keyboard or to the page's own row. */
    method RefreshSuggestions()
      requires Intact()
      modifies this`offered, this`row
      ensures Intact()
      ensures var s := old(Now()); var cell := Prefix(s.texts.retyped, s.cursor);
              var onKeys := s.keys && s.page == Verify;
              Now() == s.(offered := if onKeys then cell else "", row := if onKeys then "" else cell)
    {
      hide Prefix;
      var cell := CopyOfCell(buffers.verification, cursor);
      if keys && page == Verify {
        offered, row := cell, "";
      } else {
        offered, row := "", cell;
      }
    }

    method VerifySetCursor(index: int)
      requires Intact()
      modifies this
      ensures Intact() && Now() == CursorSet(old(Now()), index)
    {
      hide Refreshed, Words;
      var cells := buffers.mnemonic.WordCount();
      if cells <= 0 {
        return;
      }
      var i := index;
      if i < 0 {
        i := 0;
      }
      if i > cells - 1 {
        i := cells - 1;
      }
      if i == cursor {
        return;
      }
      cursor := i;
      RefreshVerify();
    }

    method VerifyType(c: char)
      requires Intact()
      modifies this, buffers.verification, buffers.verification.buf
      ensures Intact() && Now() == VerifyTyped(old(Now()), c)
    {
      hide Refreshed, CursorSet, Slots, SlotAppended, AppendFits;
      if !IsLetter(c) && c != ' ' {
        return;
      }
      if c == ' ' {
        VerifySetCursor(cursor + 1);
        return;
      }
      var n := buffers.verification.SlotLength(cursor);
      if n >= MAX_WORD_LENGTH {
        return;
      }
      var ok := buffers.verification.AppendToSlot(cursor, c);
      if !ok {
        RefusedAppend(old(Now()).texts.retyped, cursor, c);
        return;
      }
      RefreshVerify();
    }

    method VerifyBackspace()
      requires Intact()
      modifies this, buffers.verification, buffers.verification.buf
      ensures Intact() && Now() == VerifyBackspaced(old(Now()))
    {
      hide Refreshed, CursorSet, Slots, SlotBackspaced;
      var n := buffers.verification.SlotLength(cursor);
      if n == 0 {
        if cursor > 0 {
          VerifySetCursor(cursor - 1);
        }
        return;
      }
      buffers.verification.BackspaceInSlot(cursor);
      RefreshVerify();
    }

    method VerifyDeleteWord()
      requires Intact()
      modifies this, buffers.verification, buffers.verification.buf
      ensures Intact() && Now() == Retyped(old(Now()), SlotCleared(old(Now()).texts.retyped, old(cursor)))
    {
      hide Refreshed, SlotCleared;
      buffers.verification.ClearSlot(cursor);
      RefreshVerify();
    }

    method VerifyClear()
      requires Intact()
      modifies this, buffers.verification, buffers.verification.buf
      ensures Intact() && Now() == VerifyCleared(old(Now()))
    {
      hide Refreshed, SlotCountSet, Words;
      buffers.verification.Clear();
      var cells := buffers.mnemonic.WordCount();
      var _ := buffers.verification.SetSlotCount(cells);
      cursor := 0;
      RefreshVerify();
    }

    method ApplyVerifySuggestion(word: string)
      requires Intact()
      modifies this, buffers.verification, buffers.verification.buf
      ensures Intact() && Now() == SuggestionApplied(old(Now()), word)
    {
      hide Refreshed, CursorSet, SlotSet, Words;
      if word == "" {
        return;
      }
      var _ := buffers.verification.SetSlot(cursor, word);
      var cells := buffers.mnemonic.WordCount();
      if cursor + 1 < cells {
        VerifySetCursor(cursor + 1);
      } else {
        RefreshVerify();
      }
    }

    // --- the passphrase page -----------------------------------------------------

    method RefreshPassphrase()
      requires Intact()
      modifies this, buffers.confirmation, buffers.confirmation.buf
      ensures Intact() && Now() == PassRefreshed(old(Now()))
    {
      if buffers.passphrase.len == 0 {
        if buffers.confirmation.len > 0 {
          buffers.confirmation.Clear();
        }
        confirming := false;
      }
    }

    method SetPassphraseField(again: bool)
      requires Intact()
      modifies this, buffers.confirmation, buffers.confirmation.buf
      ensures Intact() && Now() == PassFieldSet(old(Now()), again)
    {
      hide PassRefreshed;
      confirming := again && buffers.passphrase.len != 0;
      RefreshPassphrase();
    }

    method PassphraseType(c: char)
      requires Intact()
      modifies this, buffers.passphrase, buffers.passphrase.buf, buffers.confirmation, buffers.confirmation.buf
      ensures Intact()
      ensures var s := old(Now());
              Now() == if IsPrintable(c) then PassEdited(s, Appended(PassText(s), [c])) else s
    {
      hide PassRefreshed, Appended;
      if !IsPrintable(c) {
        return;
      }
      if confirming {
        var _ := buffers.confirmation.Append(c);
      } else {
        var _ := buffers.passphrase.Append(c);
      }
      RefreshPassphrase();
    }

    method PassphraseBackspace()
      requires Intact()
      modifies this, buffers.passphrase, buffers.passphrase.buf, buffers.confirmation, buffers.confirmation.buf
      ensures Intact() && Now() == PassEdited(old(Now()), Backspaced(PassText(old(Now()))))
    {
      hide PassRefreshed, Backspaced;
      if confirming {
        buffers.confirmation.Backspace();
      } else {
        buffers.passphrase.Backspace();
      }
      RefreshPassphrase();
    }

    method PassphraseDeleteWord()
      requires Intact()
      modifies this, buffers.passphrase, buffers.passphrase.buf, buffers.confirmation, buffers.confirmation.buf
      ensures Intact() && Now() == PassEdited(old(Now()), WordBackspaced(PassText(old(Now()))))
    {
      hide PassRefreshed, WordBackspaced;
      if confirming {
        buffers.confirmation.BackspaceWord();
      } else {
        buffers.passphrase.BackspaceWord();
      }
      RefreshPassphrase();
    }

    method PassphraseClear()
      requires Intact()
      modifies this, buffers.passphrase, buffers.passphrase.buf, buffers.confirmation, buffers.confirmation.buf
      ensures Intact() && Now() == PassEdited(old(Now()), "")
    {
      hide PassRefreshed;
      if confirming {
        buffers.confirmation.Clear();
      } else {
        buffers.passphrase.Clear();
      }
      RefreshPassphrase();
    }

    method PassphraseState() returns (empty: bool, same: bool)
      requires Intact()
      ensures empty == (Now().texts.passphrase == "") && same == PassConfirmed(Now())
    {
      empty := buffers.passphrase.len == 0;
      same := buffers.PassphraseConfirmed();
    }

    method LeavePassphrasePage()
      requires Intact()
      modifies this, buffers.verification, buffers.verification.buf, buffers.confirmation, buffers.confirmation.buf
      ensures Intact() && Now() == PassLeft(old(Now()))
    {
      hide GoneTo, PassRefreshed;
      var empty, same := PassphraseState();
      if !empty && !same {
        SetPassphraseField(true);
        return;
      }
      GoTo(Confirm);
    }

    // --- between pages --------------------------------------------------------------

    /** One slot for each generated word. */
    method LayOutGrid()
      requires Intact()
      modifies buffers.verification, buffers.verification.buf
      ensures Intact()
      ensures var s := old(Now());
              Now() == s.(texts := s.texts.(retyped := SlotCountSet(s.texts.retyped, Cells(s))))
    {
      hide SlotCountSet, Words;
      var cells := buffers.mnemonic.WordCount();
      var _ := buffers.verification.SetSlotCount(cells);
    }

    method ShowVerifyPage()
      requires Intact()
      modifies this, buffers.verification, buffers.verification.buf
      ensures Intact() && Now() == GoneTo(old(Now()), Verify)
    {
      hide Refreshed, SlotCountSet, Words;
      hide Buffers.Valid, Buffers.Contents, SecureString.Valid, SecureString.Text;
      page := Verify;
      LayOutGrid();
      keys := !physical;
      RefreshVerify();
    }

    method ShowPassphrasePage()
      requires Intact()
      modifies this, buffers.confirmation, buffers.confirmation.buf
      ensures Intact() && Now() == GoneTo(old(Now()), Passphrase)
    {
      hide PassRefreshed;
      hide Buffers.Valid, Buffers.Contents, SecureString.Valid, SecureString.Text;
      page := Passphrase;
      offered := "";
      keys := !physical;
      RefreshPassphrase();
    }

    method GoTo(next: Page)
      requires Intact()
      modifies this, buffers.verification, buffers.verification.buf, buffers.confirmation, buffers.confirmation.buf
      ensures Intact() && Now() == GoneTo(old(Now()), next)
    {
      hide Buffers.Valid, Buffers.Contents, SecureString.Valid, SecureString.Text, Retyped, PassRefreshed;
      if next == Verify {
        ShowVerifyPage();
      } else if next == Passphrase {
        ShowPassphrasePage();
      } else {
        page := next;
        if next == Confirm {
          keys := false;
        }
      }
    }

    method WipeSecrets()
      requires Intact()
      modifies this, buffers.mnemonic, buffers.passphrase, buffers.verification, buffers.confirmation
      modifies buffers.mnemonic.buf, buffers.passphrase.buf, buffers.verification.buf, buffers.confirmation.buf
      ensures Intact() && Now() == Wiped(old(Now()))
    {
      confirming := false;
      buffers.WipeAll();
      verified := false;
      cursor := 0;
      row := "";
    }

    method OnEnter()
      requires Valid() && !shown
      modifies this, buffers.mnemonic, buffers.passphrase, buffers.verification, buffers.confirmation
      modifies buffers.mnemonic.buf, buffers.passphrase.buf, buffers.verification.buf, buffers.confirmation.buf
      ensures Valid() && Now() == Step(lib, old(Now()), Enter)
    {
      hide Buffers.Valid, Buffers.Contents, SecureString.Valid, SecureString.Text, Sound;
      StepKeepsSound(lib, Now(), Enter);
      shown := true;
      WipeSecrets();
      wallet := None;
      GoTo(Intro);
    }

    method Leave()
      requires Intact()
      modifies this, buffers.mnemonic, buffers.passphrase, buffers.verification, buffers.confirmation
      modifies buffers.mnemonic.buf, buffers.passphrase.buf, buffers.verification.buf, buffers.confirmation.buf
      ensures Intact() && Now() == Wiped(old(Now())).(shown := false)
    {
      hide Buffers.Valid, Buffers.Contents, SecureString.Valid, SecureString.Text;
      WipeSecrets();
      shown := false;
    }

    // --- generating and writing --------------------------------------------------------

    /** The words come from the library; that they are well formed is its promise. */
    method Generate(outcome: Generation)
      requires Intact()
      modifies this, buffers.mnemonic, buffers.mnemonic.buf
      modifies buffers.verification, buffers.verification.buf, buffers.confirmation, buffers.confirmation.buf
      ensures Intact() && Now() == Generated(old(Now()), outcome)
    {
      hide GoneTo, IsPhrase, Sentence, Slots, Words;
      if outcome.Refused? {
        return;
      }
      buffers.mnemonic.Clear();
      if outcome.Failed? || !IsPhrase(outcome.words) {
        return;
      }
      TakePhrase(outcome.words);
      GeneratedIs(old(Now()), outcome.words);
    }

    method TakePhrase(words: seq<string>)
      requires Intact() && IsPhrase(words)
      modifies this, buffers.mnemonic, buffers.mnemonic.buf
      modifies buffers.verification, buffers.verification.buf, buffers.confirmation, buffers.confirmation.buf
      ensures Intact()
      ensures var s := old(Now()); var m := Sentence(words);
              Now() == s.(texts := s.texts.(mnemonic := m, retyped := ""), verified := false, generated := m,
                          page := Seed)
    {
      hide IsPhrase, Sentence, Slots, Words, SlotCountSet, Complete;
      PhraseShape(words);
      var _ := buffers.mnemonic.Assign(Sentence(words));
      buffers.verification.Clear();
      verified := false;
      generated := Sentence(words);
      page := Seed;
    }

    method ShowNamePage()
      requires Intact()
      modifies this, slot
      ensures Intact() && Now() == OnConfirm(lib, old(Now()), ShowName)
    {
      hide ExportFrom;
      var mnemonic := buffers.mnemonic.buf[..buffers.mnemonic.len];
      var passphrase := buffers.passphrase.buf[..buffers.passphrase.len];
      wallet := BuildWalletExport(lib, slot, mnemonic, passphrase, 0);
      if wallet == None {
        return;
      }
      page := Name;
      keys := !physical;
    }

    /** The file that is written holds the export of the generated words, which were
        typed back letter for letter, with a passphrase that is empty or was typed
        twice; and then every secret is gone. */
    method DoCreate(written: bool)
      requires Valid() && shown && page == Name
      modifies this, buffers.mnemonic, buffers.passphrase, buffers.verification, buffers.confirmation
      modifies buffers.mnemonic.buf, buffers.passphrase.buf, buffers.verification.buf, buffers.confirmation.buf
      ensures Valid() && Now() == OnName(old(Now()), Write(written))
      ensures var s := old(Now());
              && wallet == s.wallet == ExportFrom(lib, s.generated, s.texts.passphrase, 0) && wallet.Some?
              && s.texts.retyped == s.texts.mnemonic == s.generated != ""
              && (s.texts.passphrase == "" || s.texts.again == s.texts.passphrase)
      ensures written ==> Now().texts == WIPED && page == Result
    {
      hide Buffers.Valid, Buffers.Contents, SecureString.Valid, SecureString.Text, Sound, ExportFrom, Wiped;
      NamePagePromise(lib, Now(), written);
      if !written {
        return;
      }
      WipeSecrets();
      page := Result;
    }

    // --- which page answers to which event -----------------------------------------------

    method VerifyEvent(e: Event)
      requires Intact()
      modifies this, buffers.verification, buffers.verification.buf, buffers.confirmation, buffers.confirmation.buf
      ensures Intact() && Now() == OnVerify(old(Now()), e)
    {
      hide Buffers.Valid, Buffers.Contents, SecureString.Valid, SecureString.Text;
      hide VerifyTyped, CursorSet, VerifyBackspaced, Retyped, VerifyCleared, GoneTo, SlotCleared;
      if e.VerifyChar? {
        VerifyType(e.c);
      } else if e.VerifyMove? {
        VerifySetCursor(cursor + e.delta);
      } else if e.VerifyCell? {
        VerifySetCursor(e.index);
      } else if e.VerifyBackspace? {
        VerifyBackspace();
      } else if e.VerifyDeleteWord? {
        VerifyDeleteWord();
      } else if e.VerifyClear? {
        VerifyClear();
      } else if e.ShowWords? {
        GoTo(Seed);
      } else if e.VerifyEnter? && !verified {
        VerifySetCursor(cursor + 1);
      } else if (e.VerifyEnter? || e.VerifyContinue?) && verified {
        GoTo(Passphrase);
      }
    }

    method PassphraseEvent(e: Event)
      requires Intact()
      modifies this, buffers.passphrase, buffers.passphrase.buf
      modifies buffers.verification, buffers.verification.buf, buffers.confirmation, buffers.confirmation.buf
      ensures Intact() && Now() == OnPassphrase(old(Now()), e)
    {
      hide Buffers.Valid, Buffers.Contents, SecureString.Valid, SecureString.Text;
      hide OnPassphraseKey, PassFieldSet, PassLeft, PassEntered, GoneTo;
      if e.PassField? || e.PassOther? {
        SetPassphraseField(if e.PassField? then e.again else !confirming);
      } else if e.PassEnter? || e.PassContinue? || e.PassBack? {
        PassphraseMove(e);
      } else {
        PassphraseKey(e);
      }
    }

    method PassphraseMove(e: Event)
      requires Intact() && (e.PassEnter? || e.PassContinue? || e.PassBack?)
      modifies this, buffers.verification, buffers.verification.buf, buffers.confirmation, buffers.confirmation.buf
      ensures Intact() && Now() == OnPassphrase(old(Now()), e)
    {
      hide Buffers.Valid, Buffers.Contents, SecureString.Valid, SecureString.Text;
      hide PassLeft, PassEntered, GoneTo;
      if e.PassEnter? {
        PassphraseEnter();
      } else if e.PassContinue? {
        LeavePassphrasePage();
      } else {
        GoTo(Verify);
      }
    }

    method PassphraseEnter()
      requires Intact()
      modifies this, buffers.verification, buffers.verification.buf, buffers.confirmation, buffers.confirmation.buf
      ensures Intact() && Now() == PassEntered(old(Now()))
    {
      hide Buffers.Valid, Buffers.Contents, SecureString.Valid, SecureString.Text;
      hide PassFieldSet, PassLeft;
      var empty, same := PassphraseState();
      if !confirming && !empty && !same {
        SetPassphraseField(true);
      } else {
        LeavePassphrasePage();
      }
    }

    method PassphraseKey(e: Event)
      requires Intact()
      modifies this, buffers.passphrase, buffers.passphrase.buf, buffers.confirmation, buffers.confirmation.buf
      ensures Intact() && Now() == OnPassphraseKey(old(Now()), e)
    {
      hide Buffers.Valid, Buffers.Contents, SecureString.Valid, SecureString.Text;
      hide PassEdited, PassText, Appended, Backspaced, WordBackspaced;
      if e.PassChar? {
        PassphraseType(e.c);
      } else if e.PassBackspace? {
        PassphraseBackspace();
      } else if e.PassDeleteWord? {
        PassphraseDeleteWord();
      } else if e.PassClear? {
        PassphraseClear();
      }
    }

    method SeedEvent(e: Event)
      requires Intact()
      modifies this, buffers.mnemonic, buffers.passphrase, buffers.verification, buffers.confirmation
      modifies buffers.mnemonic.buf, buffers.passphrase.buf, buffers.verification.buf, buffers.confirmation.buf
      ensures Intact() && Now() == OnSeed(old(Now()), e)
    {
      hide Buffers.Valid, Buffers.Contents, SecureString.Valid, SecureString.Text;
      hide Wiped, GoneTo;
      if e.Discard? {
        WipeSecrets();
        GoTo(Intro);
      } else if e.WordsWritten? {
        GoTo(Verify);
      }
    }

    method EntropyEvent(e: Event)
      requires Intact()
      modifies this, buffers.mnemonic, buffers.passphrase, buffers.verification, buffers.confirmation
      modifies buffers.mnemonic.buf, buffers.passphrase.buf, buffers.verification.buf, buffers.confirmation.buf
      ensures Intact() && Now() == OnEntropy(old(Now()), e)
    {
      hide Buffers.Valid, Buffers.Contents, SecureString.Valid, SecureString.Text;
      hide Generated, GoneTo;
      if e.EntropyBack? {
        GoTo(Intro);
      } else if e.Generate? {
        Generate(e.outcome);
      }
    }

    method IntroEvent(e: Event)
      requires Intact()
      modifies this, buffers.mnemonic, buffers.passphrase, buffers.verification, buffers.confirmation
      modifies buffers.mnemonic.buf, buffers.passphrase.buf, buffers.verification.buf, buffers.confirmation.buf
      ensures Intact() && Now() == OnIntro(old(Now()), e)
    {
      hide Buffers.Valid, Buffers.Contents, SecureString.Valid, SecureString.Text;
      hide GoneTo;
      if e.ChooseWordCount? && IsWordCount(e.words) {
        wordCount := e.words;
      } else if e.Continue? {
        GoTo(Entropy);
      }
    }

    method ConfirmEvent(e: Event)
      requires Intact()
      modifies this, slot, buffers.mnemonic, buffers.passphrase, buffers.verification, buffers.confirmation
      modifies buffers.mnemonic.buf, buffers.passphrase.buf, buffers.verification.buf, buffers.confirmation.buf
      ensures Intact() && Now() == OnConfirm(lib, old(Now()), e)
    {
      hide Buffers.Valid, Buffers.Contents, SecureString.Valid, SecureString.Text;
      hide GoneTo;
      if e.ConfirmBack? {
        GoTo(Passphrase);
      } else if e.ShowName? {
        ShowNamePage();
      }
    }

    method NameEvent(e: Event)
      requires Valid() && shown && page == Name
      modifies this, buffers.mnemonic, buffers.passphrase, buffers.verification, buffers.confirmation
      modifies buffers.mnemonic.buf, buffers.passphrase.buf, buffers.verification.buf, buffers.confirmation.buf
      ensures Intact() && Now() == OnName(old(Now()), e)
    {
      hide Buffers.Valid, Buffers.Contents, SecureString.Valid, SecureString.Text;
      hide GoneTo, Sound;
      if e.NameBack? {
        GoTo(Confirm);
      } else if e.Write? {
        DoCreate(e.written);
      }
    }

    method PageEvent(e: Event)
      requires Valid() && shown
      modifies this, slot, buffers.mnemonic, buffers.passphrase, buffers.verification, buffers.confirmation
      modifies buffers.mnemonic.buf, buffers.passphrase.buf, buffers.verification.buf, buffers.confirmation.buf
      ensures Intact() && Now() == OnPage(lib, old(Now()), e)
    {
      hide Buffers.Valid, Buffers.Contents, SecureString.Valid, SecureString.Text;
      hide Sound, OnIntro, OnEntropy, OnSeed, OnVerify, OnPassphrase, OnConfirm, OnName;
      match page {
        case Intro => IntroEvent(e);
        case Entropy => EntropyEvent(e);
        case Seed => SeedEvent(e);
        case Verify => VerifyEvent(e);
        case Passphrase => PassphraseEvent(e);
        case Confirm => ConfirmEvent(e);
        case Name => NameEvent(e);
        case Result =>
      }
    }

    /** Everything that can happen while the screen is up. */
    method Handle(e: Event)
      requires Valid() && shown && !e.Enter? && !e.Elsewhere?
      modifies this, slot, buffers.mnemonic, buffers.passphrase, buffers.verification, buffers.confirmation
      modifies buffers.mnemonic.buf, buffers.passphrase.buf, buffers.verification.buf, buffers.confirmation.buf
      ensures Valid() && Now() == Step(lib, old(Now()), e)
    {
      hide Buffers.Valid, Buffers.Contents, SecureString.Valid, SecureString.Text;
      hide Wiped, SuggestionApplied, OnPage, Completes, Sound;
      StepKeepsSound(lib, Now(), e);
      if e.Leave? {
        Leave();
      } else if e.Suggestion? {
        var offers := IsOffered(e.word);
        if offers {
          ApplyVerifySuggestion(e.word);
        }
      } else if e.HideKeys? {
        keys := false;
      } else if e.ToggleKeys? {
        if page == Verify || page == Passphrase || page == Name {
          keys := !keys;
        }
      } else {
        PageEvent(e);
      }
    }

    method IsOffered(word: string) returns (offers: bool)
      requires Intact()
      ensures offers == Offers(Now(), word)
    {
      offers := (keys && Completes(offered, word)) || (page == Verify && Completes(row, word));
    }
  }

  lemma NamePagePromise(lib: Library, s: State, written: bool)
    requires Sound(lib, s) && s.shown && s.page == Name
    ensures var t := OnName(s, Write(written));
            && Sound(lib, t) && t == (if written then Wiped(s).(page := Result) else s)
            && (written ==> t.texts == WIPED && t.page == Result) && t.wallet == s.wallet
    ensures s.wallet.Some? && s.wallet == ExportFrom(lib, s.generated, s.texts.passphrase, 0)
    ensures s.texts.retyped == s.texts.mnemonic == s.generated != ""
    ensures s.texts.passphrase == "" || s.texts.again == s.texts.passphrase
  {
    NameGood(lib, s, Write(written));
    hide Slots, Words, Prefix, ExportFrom;
  }

  lemma RefusedAppend(t: string, i: nat, c: char)
    ensures !AppendFits(t, i, c) ==> SlotAppended(t, i, c) == t
  {
  }
}
