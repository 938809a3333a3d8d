// The import screen as the object it is: handlers that edit the shared buffers and
// its own fields in place, each one a step of the import machine.
module ImportScreens {
  import opened Wrappers
  import opened SlotText
  import opened SecureText
  import opened SecretBuffers
  import opened Mnemonics
  import opened SigningEngine
  import opened WalletExports
  import opened ImportGrid

  class ImportScreen {
    const buffers: Buffers
    const lib: Library
    const slot: KeySlot
    var shown: bool
    var page: Page
    var field: Field
    var wordCount: nat
    var cursor: nat
    var account: nat
    var wallet: Option<WalletExport>

    /** What a handler can rely on in the middle of its work. */
    ghost predicate Intact()
      reads this, buffers, buffers.mnemonic, buffers.passphrase, buffers.verification, buffers.confirmation
      reads buffers.mnemonic.buf, buffers.passphrase.buf, buffers.verification.buf, buffers.confirmation.buf
    {
      buffers.Valid()
    }

    ghost function Now(): State
      requires Intact()
      reads this, buffers, buffers.mnemonic, buffers.passphrase, buffers.verification, buffers.confirmation
      reads buffers.mnemonic.buf, buffers.passphrase.buf, buffers.verification.buf, buffers.confirmation.buf
    {
      State(shown, page, field, buffers.Contents(), wordCount, cursor, account, wallet)
    }

    /** What holds between events: the invariant of the import machine. */
    ghost predicate Valid()
      reads this, buffers, buffers.mnemonic, buffers.passphrase, buffers.verification, buffers.confirmation
      reads buffers.mnemonic.buf, buffers.passphrase.buf, buffers.verification.buf, buffers.confirmation.buf
    {
      Intact() && Sound(lib, Now())
    }

    constructor (buffers: Buffers, lib: Library, slot: KeySlot)
      requires buffers.Valid()
      ensures this.buffers == buffers && this.lib == lib && this.slot == slot && Valid()
      ensures Now() == START.(texts := buffers.Contents())
    {
      this.buffers, this.lib, this.slot := buffers, lib, slot;
      shown, page, field, wordCount, cursor, account, wallet := false, Entry, Words, 12, 0, 0, None;
    }

    // --- fields and cells -------------------------------------------------------------

    method RefreshEntry()
      requires Intact()
      modifies this, buffers.confirmation, buffers.confirmation.buf
      ensures Intact() && Now() == Refreshed(old(Now()))
    {
      if buffers.passphrase.len == 0 {
        if buffers.confirmation.len > 0 {
          buffers.confirmation.Clear();
        }
        if field == Again {
          field := Passphrase;
        }
      }
    }

    method SetField(f: Field)
      requires Intact()
      modifies this, buffers.confirmation, buffers.confirmation.buf
      ensures Intact() && Now() == FieldSet(old(Now()), f)
    {
      hide Refreshed;
      field := if f == Again && buffers.passphrase.len == 0 then Passphrase else f;
      RefreshEntry();
    }

    method SetWordCount(n: int)
      requires Intact()
      modifies this, buffers.mnemonic, buffers.mnemonic.buf, buffers.confirmation, buffers.confirmation.buf
      ensures Intact() && Now() == WordCountSet(old(Now()), n)
    {
      hide Refreshed, SlotCountSet;
      if !IsWordCount(n) {
        return;
      }
      wordCount := n;
      var _ := buffers.mnemonic.SetSlotCount(n);
      if cursor >= n {
        cursor := n - 1;
      }
      RefreshEntry();
    }

    method SetWordCursor(index: int)
      requires Intact()
      modifies this, buffers.confirmation, buffers.confirmation.buf
      ensures Intact() && Now() == CursorSet(old(Now()), index)
    {
      hide Refreshed;
      var last := if wordCount > 0 then wordCount - 1 else 0;
      var i := index;
      if i < 0 {
        i := 0;
      }
      if i > last {
        i := last;
      }
      if i == cursor {
        return;
      }
      cursor := i;
      RefreshEntry();
    }

    // --- typing -----------------------------------------------------------------------

    /** The passphrase field being typed into. */
    function ActiveBuffer(): SecureString
      reads this, buffers
    {
      if field == Again then buffers.confirmation else buffers.passphrase
    }

    method TypePassphrase(c: char)
      requires Intact() && field != Words
      modifies this, buffers.passphrase, buffers.passphrase.buf, buffers.confirmation, buffers.confirmation.buf
      ensures Intact() && Now() == Typed(old(Now()), c)
    {
      hide Refreshed, Appended, Fits;
      if !IsPrintable(c) {
        return;
      }
      var ok := ActiveBuffer().Append(c);
      if !ok {
        RefusedPassphrase(Active(old(Now())), c);
        return;
      }
      RefreshEntry();
    }

    method TypeWord(c: char)
      requires Intact() && field == Words
      modifies this, buffers.mnemonic, buffers.mnemonic.buf, buffers.confirmation, buffers.confirmation.buf
      ensures Intact() && Now() == Typed(old(Now()), c)
    {
      hide Refreshed, CursorSet, Slots, SlotAppended, AppendFits;
      if !IsLetter(c) && c != ' ' {
        return;
      }
      if c == ' ' {
        SetWordCursor(cursor + 1);
        return;
      }
      var n := buffers.mnemonic.SlotLength(cursor);
      if n >= MAX_WORD_LENGTH {
        return;
      }
      var ok := buffers.mnemonic.AppendToSlot(cursor, c);
      if !ok {
        RefusedLetter(old(Now()).texts.mnemonic, cursor, c);
        return;
      }
      RefreshEntry();
    }

    method BackspaceKey()
      requires Intact()
      modifies this, buffers.mnemonic, buffers.passphrase, buffers.confirmation
      modifies buffers.mnemonic.buf, buffers.passphrase.buf, buffers.confirmation.buf
      ensures Intact() && Now() == WentBack(old(Now()))
    {
      hide Refreshed, CursorSet, Slots, SlotBackspaced, Backspaced;
      if field != Words {
        ActiveBuffer().Backspace();
        RefreshEntry();
        return;
      }
      var n := buffers.mnemonic.SlotLength(cursor);
      if n == 0 {
        if cursor > 0 {
          SetWordCursor(cursor - 1);
        }
        return;
      }
      buffers.mnemonic.BackspaceInSlot(cursor);
      RefreshEntry();
    }

    method DeleteWordKey()
      requires Intact()
      modifies this, buffers.mnemonic, buffers.passphrase, buffers.confirmation
      modifies buffers.mnemonic.buf, buffers.passphrase.buf, buffers.confirmation.buf
      ensures Intact() && Now() == WordDeleted(old(Now()))
    {
      hide Refreshed, SlotCleared, WordBackspaced;
      if field != Words {
        ActiveBuffer().BackspaceWord();
      } else {
        buffers.mnemonic.ClearSlot(cursor);
      }
      RefreshEntry();
    }

    method ClearKey()
      requires Intact()
      modifies this, buffers.mnemonic, buffers.passphrase, buffers.confirmation
      modifies buffers.mnemonic.buf, buffers.passphrase.buf, buffers.confirmation.buf
      ensures Intact() && Now() == AllCleared(old(Now()))
    {
      hide Refreshed, SlotCountSet;
      if field != Words {
        ActiveBuffer().Clear();
      } else {
        buffers.mnemonic.Clear();
        var _ := buffers.mnemonic.SetSlotCount(wordCount);
        cursor := 0;
      }
      RefreshEntry();
    }

    method ApplySuggestion(word: string)
      requires Intact()
      modifies this, buffers.mnemonic, buffers.mnemonic.buf, buffers.confirmation, buffers.confirmation.buf
      ensures Intact() && Now() == ImportGrid.SuggestionApplied(old(Now()), word)
    {
      hide Refreshed, CursorSet, SlotSet, IsCell;
      if word == "" || !IsCell(word) {
        return;
      }
      var _ := buffers.mnemonic.SetSlot(cursor, word);
      if cursor + 1 < wordCount {
        SetWordCursor(cursor + 1);
      } else {
        RefreshEntry();
      }
    }

    // --- deriving --------------------------------------------------------------------

    method IsPassphraseReady() returns (ready: bool)
      requires Intact()
      ensures ready == PassReady(Now())
    {
      if buffers.passphrase.len == 0 {
        return true;
      }
      ready := buffers.PassphraseConfirmed();
    }

    /** An unfinished grid is reported before its blanks could be collapsed. */
    method DeriveKeys()
      requires Intact()
      modifies this, slot, buffers.mnemonic, buffers.mnemonic.buf, buffers.confirmation, buffers.confirmation.buf
      ensures Intact() && Now() == Derived(lib, old(Now()))
    {
      hide Refreshed, CursorSet, FieldSet, Slots, Normalised, FirstEmpty, Exported, PassReady;
      var ready := IsPassphraseReady();
      if !ready {
        SetField(Again);
        return;
      }
      var empty := buffers.mnemonic.FirstEmptySlot();
      if empty < wordCount {
        SetWordCursor(empty);
        return;
      }
      MakeExport();
      if wallet.Some? {
        page := Review;
      }
    }

    method MakeExport()
      requires Intact()
      modifies this`wallet, slot, buffers.mnemonic, buffers.mnemonic.buf
      ensures Intact() && Now() == Exported(lib, old(Now()))
    {
      hide Normalised, ExportFrom;
      buffers.mnemonic.NormaliseWhitespace();
      var mnemonic := buffers.mnemonic.buf[..buffers.mnemonic.len];
      var passphrase := buffers.passphrase.buf[..buffers.passphrase.len];
      wallet := BuildWalletExport(lib, slot, mnemonic, passphrase, account);
    }

    method SetAccount(a: int)
      requires Intact()
      modifies this, slot, buffers.mnemonic, buffers.mnemonic.buf
      ensures Intact() && Now() == AccountSet(lib, old(Now()), a)
    {
      hide Slots, FirstEmpty, Exported;
      if a < 0 || a > MAX_ACCOUNT {
        return;
      }
      account := a;
      var empty := buffers.mnemonic.FirstEmptySlot();
      if empty < wordCount {
        return;
      }
      MakeExport();
    }

    method WipeSecrets()
      requires Intact()
      modifies this, buffers.mnemonic, buffers.passphrase, buffers.verification, buffers.confirmation
      modifies buffers.mnemonic.buf, buffers.passphrase.buf, buffers.verification.buf, buffers.confirmation.buf
      ensures Intact() && Now() == Wiped(old(Now()))
    {
      buffers.WipeAll();
      cursor := 0;
    }

    method OnEnter()
      requires Valid() && !shown
      modifies this, buffers.mnemonic, buffers.passphrase, buffers.verification, buffers.confirmation
      modifies buffers.mnemonic.buf, buffers.passphrase.buf, buffers.verification.buf, buffers.confirmation.buf
      ensures Valid() && Now() == Step(lib, old(Now()), Enter)
    {
      hide WordCountSet, FieldSet, Refreshed, Sound;
      hide Buffers.Valid, Buffers.Contents, SecureString.Valid, SecureString.Text;
      StepKeepsSound(lib, Now(), Enter);
      WipeSecrets();
      shown, wallet, account := true, None, 0;
      SetWordCount(wordCount);
      SetField(Words);
      page := Entry;
      RefreshEntry();
    }

    // --- which event does what --------------------------------------------------------------

    method TypingEvent(e: Event)
      requires Intact()
      modifies this, buffers.mnemonic, buffers.passphrase, buffers.confirmation
      modifies buffers.mnemonic.buf, buffers.passphrase.buf, buffers.confirmation.buf
      ensures Intact() && Now() == OnTyping(old(Now()), e)
    {
      hide Typed, WentBack, WordDeleted, AllCleared, ImportGrid.SuggestionApplied;
      hide Buffers.Valid, Buffers.Contents, SecureString.Valid, SecureString.Text;
      if e.Char? && field != Words {
        TypePassphrase(e.c);
      } else if e.Char? {
        TypeWord(e.c);
      } else if e.Backspace? {
        BackspaceKey();
      } else if e.DeleteWord? {
        DeleteWordKey();
      } else if e.ClearAll? {
        ClearKey();
      } else if e.Suggestion? {
        ApplySuggestion(e.word);
      }
    }

    method CellClicked(index: int)
      requires Intact()
      modifies this, buffers.confirmation, buffers.confirmation.buf
      ensures Intact() && Now() == OnEntry(lib, old(Now()), Cell(index))
    {
      hide CursorSet, FieldSet;
      if field != Words {
        SetField(Words);
      }
      SetWordCursor(index);
    }

    method SwitchField()
      requires Intact()
      modifies this, buffers.confirmation, buffers.confirmation.buf
      ensures Intact() && Now() == OnEntry(lib, old(Now()), NextField)
    {
      hide FieldSet;
      match field {
        case Words => SetField(Passphrase);
        case Passphrase => SetField(if buffers.passphrase.len == 0 then Words else Again);
        case Again => SetField(Words);
      }
    }

    method ReturnKey(ready: bool)
      requires Intact()
      modifies this, slot, buffers.mnemonic, buffers.mnemonic.buf, buffers.confirmation, buffers.confirmation.buf
      ensures Intact() && Now() == Returned(lib, old(Now()), ready)
    {
      hide CursorSet, FieldSet, Derived, PassReady;
      hide Buffers.Valid, Buffers.Contents, SecureString.Valid, SecureString.Text;
      if field == Words {
        if ready {
          SetField(Passphrase);
        } else {
          SetWordCursor(cursor + 1);
        }
        return;
      }
      var confirmed := IsPassphraseReady();
      if field == Passphrase && !confirmed {
        SetField(Again);
        return;
      }
      if ready {
        DeriveKeys();
      }
    }

    method EntryEvent(e: Event)
      requires Intact()
      modifies this, slot, buffers.mnemonic, buffers.passphrase, buffers.confirmation
      modifies buffers.mnemonic.buf, buffers.passphrase.buf, buffers.confirmation.buf
      ensures Intact() && Now() == OnEntry(lib, old(Now()), e)
    {
      hide OnTyping, CursorSet, FieldSet, WordCountSet, Derived, Returned;
      hide Buffers.Valid, Buffers.Contents, SecureString.Valid, SecureString.Text;
      if e.ChooseWordCount? {
        SetWordCount(e.words);
      } else if e.CycleWordCount? {
        SetWordCount(NextWordCount(wordCount));
      } else if e.Cell? {
        CellClicked(e.index);
      } else if e.Cursor? {
        if field == Words {
          SetWordCursor(e.index);
        }
      } else if e.Move? {
        if field == Words {
          SetWordCursor(cursor + e.delta);
        }
      } else if e.PickField? {
        SetField(e.field);
      } else if e.NextField? {
        SwitchField();
      } else if e.Return? {
        ReturnKey(e.ready);
      } else if e.Derive? {
        DeriveKeys();
      } else {
        TypingEvent(e);
      }
    }

    method ReviewEvent(e: Event)
      requires Intact()
      modifies this, slot, buffers.mnemonic, buffers.mnemonic.buf, buffers.confirmation, buffers.confirmation.buf
      ensures Intact() && Now() == OnReview(lib, old(Now()), e)
    {
      hide AccountSet, Refreshed;
      hide Buffers.Valid, Buffers.Contents, SecureString.Valid, SecureString.Text;
      if e.Account? {
        SetAccount(e.account);
      } else if e.ReviewBack? {
        page := Entry;
        RefreshEntry();
      } else if e.ShowName? {
        page := Name;
      }
    }

    /** A file is written only of the export of the words, the passphrase and the account
        on the screen, every cell filled and the passphrase confirmed; and then every
        secret is gone. */
    method DoWrite(written: bool)
      requires Valid() && shown && page == Name
      modifies this, buffers.mnemonic, buffers.passphrase, buffers.verification, buffers.confirmation
      modifies buffers.mnemonic.buf, buffers.passphrase.buf, buffers.verification.buf, buffers.confirmation.buf
      ensures Valid() && Now() == OnName(old(Now()), Write(written))
      ensures page == Result <==> written && wallet.Some?
      ensures var s := old(Now());
              && wallet == s.wallet == ExportFrom(lib, s.texts.mnemonic, s.texts.passphrase, s.account)
              && AllFilled(Slots(s.texts.mnemonic)) && PassReady(s)
      ensures page == Result ==> Now().texts == WIPED
    {
      NameKept(lib, Now(), Write(written));
      hide Buffers.Valid, Buffers.Contents, SecureString.Valid, SecureString.Text, Slots, GridLaidOut, ExportFrom;
      if written && wallet.Some? {
        WipeSecrets();
        page := Result;
      }
    }

    method NameEvent(e: Event)
      requires Valid() && shown && page == Name
      modifies this, buffers.mnemonic, buffers.passphrase, buffers.verification, buffers.confirmation
      modifies buffers.mnemonic.buf, buffers.passphrase.buf, buffers.verification.buf, buffers.confirmation.buf
      ensures Intact() && Now() == OnName(old(Now()), e)
    {
      hide Wiped, Sound, PassReady, Slots;
      hide Buffers.Valid, Buffers.Contents, SecureString.Valid, SecureString.Text;
      if e.NameBack? {
        page := Review;
      } else if e.Write? {
        DoWrite(e.written);
      }
    }

    /** Everything that can happen while the screen is up. */
    method Handle(e: Event)
      requires Valid() && shown && !e.Enter? && !e.Elsewhere?
      modifies this, slot, buffers.mnemonic, buffers.passphrase, buffers.verification, buffers.confirmation
      modifies buffers.mnemonic.buf, buffers.passphrase.buf, buffers.verification.buf, buffers.confirmation.buf
      ensures Valid() && Now() == Step(lib, old(Now()), e)
    {
      hide Wiped, OnEntry, OnReview, OnName, OnTyping, Sound;
      hide Buffers.Valid, Buffers.Contents, SecureString.Valid, SecureString.Text;
      StepKeepsSound(lib, Now(), e);
      if e.Leave? {
        WipeSecrets();
        shown := false;
      } else if page == Entry {
        EntryEvent(e);
      } else if page == Review {
        ReviewEvent(e);
      } else if page == Name {
        NameEvent(e);
      } else {
        TypingEvent(e);
      }
    }
  }

  lemma RefusedPassphrase(t: string, c: char)
    ensures !Fits(t, 1) ==> Appended(t, [c]) == t
  {
  }

  lemma RefusedLetter(t: string, i: nat, c: char)
    ensures !AppendFits(t, i, c) ==> SlotAppended(t, i, c) == t
  {
  }
}
