// The import screen, without its widgets: a grid of word cells, a passphrase typed
// twice, and the export derived from them.
module ImportGrid {
  import opened Wrappers
  import opened SlotText
  import opened SecureText
  import opened SecretBuffers
  import opened Mnemonics
  import opened WalletExports

  const MAX_ACCOUNT := 9

  datatype Page = Entry | Review | Name | Result
  datatype Field = Words | Passphrase | Again

  // `wallet` is the export; None when it is empty.
  datatype State = State(shown: bool, page: Page, field: Field, texts: Texts, wordCount: nat, cursor: nat,
                         account: nat, wallet: Option<WalletExport>)

  datatype Event =
    | Enter
    | Leave
    | Elsewhere(texts: Texts)
    | ChooseWordCount(words: int)
    | CycleWordCount
    | Cell(index: int)
    | Cursor(index: int)
    | Move(delta: int)
    | PickField(field: Field)
    | NextField
    | Char(c: char)
    | Backspace
    | DeleteWord
    | ClearAll
    | Suggestion(word: string)
    | Return(ready: bool)                    // Enter, with the derive button lit or not
    | Derive
    | Account(account: int)
    | ReviewBack
    | ShowName
    | NameBack
    | Write(written: bool)

  const START := State(false, Entry, Words, WIPED, 12, 0, 0, None)

  // --- the handlers ------------------------------------------------------------------

  /** refreshEntry(): a repeat of no passphrase is dropped. */
  function Refreshed(s: State): State {
    if s.texts.passphrase != "" then s
    else s.(texts := s.texts.(again := ""), field := if s.field == Again then Passphrase else s.field)
  }

  function FieldSet(s: State, f: Field): State {
    Refreshed(s.(field := if f == Again && s.texts.passphrase == "" then Passphrase else f))
  }

  function WithWords(s: State, t: string): State {
    Refreshed(s.(texts := s.texts.(mnemonic := t)))
  }

  function WordCountSet(s: State, n: int): State {
    if !IsWordCount(n) then s
    else
      WithWords(s.(wordCount := n, cursor := if s.cursor >= n then n - 1 else s.cursor),
                SlotCountSet(s.texts.mnemonic, n))
  }

  function NextWordCount(n: nat): nat {
    if n == 12 then 15 else if n == 15 then 18 else if n == 18 then 21 else if n == 21 then 24 else 12
  }

  function CursorSet(s: State, index: int): State {
    var last := if s.wordCount > 0 then s.wordCount - 1 else 0;
    var i := if index < 0 then 0 else if index > last then last else index;
    if i == s.cursor then s else Refreshed(s.(cursor := i))
  }

  function SlotLen(t: string, i: nat): nat {
    if i < |Slots(t)| then |Slots(t)[i]| else 0
  }

  function Active(s: State): string {
    match s.field
    case Words => s.texts.mnemonic
    case Passphrase => s.texts.passphrase
    case Again => s.texts.again
  }

  function PassEdited(s: State, t: string): State {
    Refreshed(if s.field == Again then s.(texts := s.texts.(again := t)) else s.(texts := s.texts.(passphrase := t)))
  }

  function Typed(s: State, c: char): State {
    if s.field != Words then
      if IsPrintable(c) && Fits(Active(s), 1) then PassEdited(s, Appended(Active(s), [c])) else s
    else if c == ' ' then CursorSet(s, s.cursor + 1)
    else if !IsLetter(c) || SlotLen(s.texts.mnemonic, s.cursor) >= MAX_WORD_LENGTH
            || !AppendFits(s.texts.mnemonic, s.cursor, c) then s
    else WithWords(s, SlotAppended(s.texts.mnemonic, s.cursor, c))
  }

  function WentBack(s: State): State {
    if s.field != Words then PassEdited(s, Backspaced(Active(s)))
    else if SlotLen(s.texts.mnemonic, s.cursor) == 0 then
      if s.cursor > 0 then CursorSet(s, s.cursor - 1) else s
    else WithWords(s, SlotBackspaced(s.texts.mnemonic, s.cursor))
  }

  function WordDeleted(s: State): State {
    if s.field != Words then PassEdited(s, WordBackspaced(Active(s)))
    else WithWords(s, SlotCleared(s.texts.mnemonic, s.cursor))
  }

  function AllCleared(s: State): State {
    if s.field != Words then PassEdited(s, "")
    else WithWords(s.(cursor := 0), SlotCountSet("", s.wordCount))
  }

  /** The word comes from the word list. */
  function SuggestionApplied(s: State, w: string): State {
    if w == "" || !IsCell(w) then s
    else
      var t := s.(texts := s.texts.(mnemonic := SlotSet(s.texts.mnemonic, s.cursor, w)));
      if s.cursor + 1 < s.wordCount then CursorSet(t, s.cursor + 1) else Refreshed(t)
  }

  predicate PassReady(s: State) {
    s.texts.passphrase == "" || s.texts.passphrase == s.texts.again
  }

  /** The derivation, once every cell is filled; the export is empty if it fails. */
  function Exported(lib: Library, s: State): State {
    var t := s.(texts := s.texts.(mnemonic := Normalised(s.texts.mnemonic)));
    t.(wallet := ExportFrom(lib, t.texts.mnemonic, t.texts.passphrase, t.account))
  }

  function Derived(lib: Library, s: State): State {
    if !PassReady(s) then FieldSet(s, Again)
    else
      var empty := FirstEmpty(Slots(s.texts.mnemonic));
      if empty < s.wordCount then CursorSet(s, empty)
      else
        var t := Exported(lib, s);
        if t.wallet.Some? then t.(page := Review) else t
  }

  function Returned(lib: Library, s: State, ready: bool): State {
    if s.field == Words then
      if ready then FieldSet(s, Passphrase) else CursorSet(s, s.cursor + 1)
    else if s.field == Passphrase && !PassReady(s) then FieldSet(s, Again)
    else if ready then Derived(lib, s)
    else s
  }

  /** On the review page another account means another derivation. */
  function AccountSet(lib: Library, s: State, account: int): State {
    if account < 0 || account > MAX_ACCOUNT then s
    else
      var t := s.(account := account);
      if FirstEmpty(Slots(t.texts.mnemonic)) < t.wordCount then t else Exported(lib, t)
  }

  function Wiped(s: State): State {
    s.(texts := WIPED, cursor := 0)
  }

  function Entered(s: State): State {
    var t := Wiped(s).(shown := true, wallet := None, account := 0);
    Refreshed(FieldSet(WordCountSet(t, t.wordCount), Words).(page := Entry))
  }

  function Step(lib: Library, s: State, e: Event): State {
    match e
    case Enter => if s.shown then s else Entered(s)
    case Elsewhere(t) => if s.shown then s else s.(texts := t)
    case Leave => if s.shown then Wiped(s).(shown := false) else s
    case _ => if !s.shown then s else OnPage(lib, s, e)
  }

  // The floating keyboard is down on the review page, so no typing arrives there; on
  // the save-as page typing goes into the file name.
  function OnPage(lib: Library, s: State, e: Event): State {
    match s.page
    case Entry => OnEntry(lib, s, e)
    case Review => OnReview(lib, s, e)
    case Name => OnName(s, e)
    case Result => OnTyping(s, e)
  }

  function OnEntry(lib: Library, s: State, e: Event): State {
    match e
    case ChooseWordCount(n) => WordCountSet(s, n)
    case CycleWordCount => WordCountSet(s, NextWordCount(s.wordCount))
    case Cell(i) => CursorSet(if s.field != Words then FieldSet(s, Words) else s, i)
    case Cursor(i) => if s.field == Words then CursorSet(s, i) else s
    case Move(delta) => if s.field == Words then CursorSet(s, s.cursor + delta) else s
    case PickField(f) => FieldSet(s, f)
    case NextField => FieldSet(s, match s.field
                                  case Words => Passphrase
                                  case Passphrase => if s.texts.passphrase == "" then Words else Again
                                  case Again => Words)
    case Return(ready) => Returned(lib, s, ready)
    case Derive => Derived(lib, s)
    case _ => OnTyping(s, e)
  }

  function OnTyping(s: State, e: Event): State {
    match e
    case Char(c) => Typed(s, c)
    case Backspace => WentBack(s)
    case DeleteWord => WordDeleted(s)
    case ClearAll => AllCleared(s)
    case Suggestion(w) => SuggestionApplied(s, w)
    case _ => s
  }

  function OnReview(lib: Library, s: State, e: Event): State {
    match e
    case Account(a) => AccountSet(lib, s, a)
    case ReviewBack => Refreshed(s.(page := Entry))
    case ShowName => s.(page := Name)
    case _ => s
  }

  function OnName(s: State, e: Event): State {
    match e
    case NameBack => s.(page := Review)
    case Write(written) => if written && s.wallet.Some? then Wiped(s).(page := Result) else s
    case _ => s
  }

  function Run(lib: Library, s: State, events: seq<Event>): State
    decreases |events|
  {
    if events == [] then s else Run(lib, Step(lib, s, events[0]), events[1..])
  }

  // --- the invariant of every run -------------------------------------------------------

  /** One cell per word, the cursor on one of them, and in each at most eight
      lower-case letters. */
  predicate GridLaidOut(s: State) {
    && |Slots(s.texts.mnemonic)| == s.wordCount
    && s.cursor < s.wordCount
    && AllCells(Slots(s.texts.mnemonic))
  }

  /** Past the entry page the grid is full, the passphrase confirmed, and the export is
      what the account shown gives with exactly what is in the buffers. */
  predicate ReadyToWrite(lib: Library, s: State) {
    && AllFilled(Slots(s.texts.mnemonic)) && PassReady(s)
    && s.wallet == ExportFrom(lib, s.texts.mnemonic, s.texts.passphrase, s.account)
  }

  predicate Sound(lib: Library, s: State) {
    && IsWordCount(s.wordCount)
    && (s.shown && s.page != Result ==> GridLaidOut(s))
    && (s.shown && s.page in {Review, Name} ==> ReadyToWrite(lib, s))
  }

  /** A grid of any offered size can be laid out over any other. */
  lemma LayoutFits(t: string, n: int)
    requires IsWordCount(n) && AllCells(Slots(t)) && |Slots(t)| <= 24
    ensures CountFits(t, n)
    ensures |Slots(SlotCountSet(t, n))| == n && AllCells(Slots(SlotCountSet(t, n)))
  {
    hide Slots, SlotCountSet;
    GridLength(t);
    SlotCountSetSlots(t, n);
    var s := Slots(t);
    forall k | 0 <= k < n ensures IsCell(Slots(SlotCountSet(t, n))[k]) {
      if k < |s| {
        assert IsCell(s[k]);
        assert k < |s| <= n ==> (s + Empties(n - |s|))[k] == s[k];
      } else {
        assert (s + Empties(n - |s|))[k] == "";
      }
    }
  }

  lemma CellReplaced(t: string, u: string, i: nat, x: string)
    requires AllCells(Slots(t)) && i < |Slots(t)| && IsCell(x) && Slots(u) == Slots(t)[i := x]
    ensures AllCells(Slots(u)) && |Slots(u)| == |Slots(t)|
  {
    hide Slots, IsCell;
    forall k | 0 <= k < |Slots(u)| ensures IsCell(Slots(u)[k]) {
      assert IsCell(Slots(t)[k]);
    }
  }

  /** Edits inside the grid keep every cell a cell. */
  lemma EditsKeepCells(t: string, i: nat, c: char, w: string)
    requires AllCells(Slots(t)) && i < |Slots(t)| <= 24 && IsLetter(c) && IsCell(w)
    ensures |Slots(t)[i]| < MAX_WORD_LENGTH ==>
              AppendFits(t, i, c) && AllCells(Slots(SlotAppended(t, i, c)))
              && |Slots(SlotAppended(t, i, c))| == |Slots(t)|
    ensures AllCells(Slots(SlotBackspaced(t, i))) && |Slots(SlotBackspaced(t, i))| == |Slots(t)|
    ensures AllCells(Slots(SlotCleared(t, i))) && |Slots(SlotCleared(t, i))| == |Slots(t)|
    ensures SetFits(t, i, w) && AllCells(Slots(SlotSet(t, i, w))) && |Slots(SlotSet(t, i, w))| == |Slots(t)|
  {
    hide Slots, SlotStart;
    var x := Slots(t)[i];
    assert IsCell(x);
    GridLength(t);
    EditsKeepCount(t, i, c, w);
    AppendKeeps(t, i, c);
    BackspaceKeeps(t, i);
    CellReplaced(t, SlotCleared(t, i), i, "");
    GridLength(SlotCleared(t, i));
    CellIsSpaceless(w);
    CellReplaced(t, WithSlot(t, i, w), i, w);
  }

  lemma CellIsSpaceless(w: string)
    requires IsCell(w)
    ensures Spaceless(w)
  {
  }

  lemma AppendKeeps(t: string, i: nat, c: char)
    requires AllCells(Slots(t)) && i < |Slots(t)| <= 24 && IsLetter(c)
    ensures |Slots(t)[i]| < MAX_WORD_LENGTH ==>
              AppendFits(t, i, c) && AllCells(Slots(SlotAppended(t, i, c)))
  {
    hide Slots, SlotStart;
    var x := Slots(t)[i];
    assert IsCell(x);
    GridLength(t);
    if |x| < MAX_WORD_LENGTH {
      SlotIsSpaceless(t, i, c);
      assert IsCell(x + [c]);
      CellReplaced(t, SlotAppended(t, i, c), i, x + [c]);
    }
  }

  lemma BackspaceKeeps(t: string, i: nat)
    requires AllCells(Slots(t)) && i < |Slots(t)|
    ensures AllCells(Slots(SlotBackspaced(t, i)))
  {
    hide Slots, SlotStart;
    var x := Slots(t)[i];
    assert IsCell(x);
    if x != "" {
      SlotIsSpaceless(t, i, 'a');
      CellReplaced(t, SlotBackspaced(t, i), i, x[..|x| - 1]);
    }
  }

  // --- step by step ------------------------------------------------------------------------

  /** On the entry page any laid-out grid will do. */
  predicate OnGrid(s: State) {
    s.shown && s.page == Entry && IsWordCount(s.wordCount) && GridLaidOut(s)
  }

  lemma FieldsFree(s: State, t: State)
    requires OnGrid(s)
    requires t == s.(field := t.field, texts := t.texts) && t.texts.mnemonic == s.texts.mnemonic
    ensures OnGrid(t)
  {
    hide Slots;
  }

  lemma WordsReplaced(s: State, cursor: nat, t: string)
    requires OnGrid(s) && cursor < s.wordCount && |Slots(t)| == s.wordCount && AllCells(Slots(t))
    ensures OnGrid(WithWords(s.(cursor := cursor), t))
  {
    hide Slots;
  }

  lemma CursorKept(s: State, index: int)
    requires OnGrid(s)
    ensures OnGrid(CursorSet(s, index))
  {
    hide Slots;
  }

  lemma WordCountKept(s: State, n: int)
    requires OnGrid(s)
    ensures OnGrid(WordCountSet(s, n))
  {
    if IsWordCount(n) {
      GridSize(s);
      LayoutFits(s.texts.mnemonic, n);
    }
    hide Slots, SlotCountSet;
  }

  lemma GridSize(s: State)
    requires OnGrid(s)
    ensures AllCells(Slots(s.texts.mnemonic)) && s.cursor < |Slots(s.texts.mnemonic)| == s.wordCount <= 24
  {
    hide Slots;
  }

  lemma TypedKept(s: State, c: char)
    requires OnGrid(s)
    ensures OnGrid(Typed(s, c))
  {
    GridSize(s);
    CursorKept(s, s.cursor + 1);
    if s.field != Words {
      FieldsFree(s, Typed(s, c));
    } else if IsLetter(c) {
      EditsKeepCells(s.texts.mnemonic, s.cursor, c, "");
      if |Slots(s.texts.mnemonic)[s.cursor]| < MAX_WORD_LENGTH {
        WordsReplaced(s, s.cursor, SlotAppended(s.texts.mnemonic, s.cursor, c));
      }
    }
    hide Slots, SlotAppended, AppendFits, OnGrid, CursorSet, WithWords, Appended, Fits;
  }

  lemma WentBackKept(s: State)
    requires OnGrid(s)
    ensures OnGrid(WentBack(s))
  {
    GridSize(s);
    CursorKept(s, s.cursor - 1);
    if s.field != Words {
      FieldsFree(s, WentBack(s));
    } else {
      EditsKeepCells(s.texts.mnemonic, s.cursor, 'a', "");
      WordsReplaced(s, s.cursor, SlotBackspaced(s.texts.mnemonic, s.cursor));
    }
    hide Slots, SlotBackspaced, OnGrid, CursorSet, WithWords, Backspaced;
  }

  lemma WordDeletedKept(s: State)
    requires OnGrid(s)
    ensures OnGrid(WordDeleted(s))
  {
    GridSize(s);
    if s.field != Words {
      FieldsFree(s, WordDeleted(s));
    } else {
      EditsKeepCells(s.texts.mnemonic, s.cursor, 'a', "");
      WordsReplaced(s, s.cursor, SlotCleared(s.texts.mnemonic, s.cursor));
    }
    hide Slots, SlotCleared, OnGrid, WithWords, WordBackspaced;
  }

  lemma EmptyGrid(n: nat)
    requires IsWordCount(n)
    ensures |Slots(SlotCountSet("", n))| == n && AllCells(Slots(SlotCountSet("", n)))
  {
    SlotsOfEmpty();
    assert AllCells([""]);
    LayoutFits("", n);
  }

  lemma AllClearedKept(s: State)
    requires OnGrid(s)
    ensures OnGrid(AllCleared(s))
  {
    if s.field != Words {
      FieldsFree(s, AllCleared(s));
    } else {
      EmptyGrid(s.wordCount);
      WordsReplaced(s, 0, SlotCountSet("", s.wordCount));
    }
    hide Slots, SlotCountSet, WithWords;
  }

  lemma SuggestionKept(s: State, w: string)
    requires OnGrid(s)
    ensures OnGrid(SuggestionApplied(s, w))
  {
    if w != "" && IsCell(w) {
      GridSize(s);
      EditsKeepCells(s.texts.mnemonic, s.cursor, 'a', w);
      var t := SlotSet(s.texts.mnemonic, s.cursor, w);
      WordsReplaced(s, s.cursor, t);
      if s.cursor + 1 < s.wordCount {
        WordsReplaced(s, s.cursor + 1, t);
      }
    }
    hide Slots, SlotSet, OnGrid;
  }

  /** A full grid passes through the derivation unchanged. */
  lemma FullGridIsNormal(t: string)
    requires AllCells(Slots(t)) && AllFilled(Slots(t))
    ensures Normalised(t) == t
  {
    hide Slots, Normalised;
    var s := Slots(t);
    CellsArePlain(s);
    JoinOfSlots(t);
    JoinHasOnlySpaces(s);
    NormalisedFixedPoints(t);
  }

  lemma NoneEmpty(s: seq<string>)
    ensures FirstEmpty(s) == |s| <==> AllFilled(s)
  {
    if FirstEmpty(s) < |s| {
      assert s[FirstEmpty(s)] == "";
    }
  }

  lemma DerivedKept(lib: Library, s: State)
    requires OnGrid(s)
    ensures var t := Derived(lib, s);
            OnGrid(t) || (t == s.(page := Review, wallet := t.wallet) && GridLaidOut(t) && ReadyToWrite(lib, t))
  {
    var words := Slots(s.texts.mnemonic);
    GridSize(s);
    NoneEmpty(words);
    CursorKept(s, FirstEmpty(words));
    FieldsFree(s, FieldSet(s, Again));
    if FirstEmpty(words) >= s.wordCount {
      FullGridIsNormal(s.texts.mnemonic);
    }
    hide Slots, CursorSet, FirstEmpty, Normalised;
  }

  lemma ReturnedKept(lib: Library, s: State, ready: bool)
    requires OnGrid(s)
    ensures var t := Returned(lib, s, ready);
            OnGrid(t) || (t == s.(page := Review, wallet := t.wallet) && GridLaidOut(t) && ReadyToWrite(lib, t))
  {
    CursorKept(s, s.cursor + 1);
    FieldsFree(s, FieldSet(s, Passphrase));
    FieldsFree(s, FieldSet(s, Again));
    DerivedKept(lib, s);
    hide OnGrid, CursorSet, FieldSet, Derived, GridLaidOut, ReadyToWrite;
  }

  lemma TypingKept(s: State, e: Event)
    requires OnGrid(s)
    ensures OnGrid(OnTyping(s, e))
  {
    hide OnGrid, Typed, WentBack, WordDeleted, AllCleared, SuggestionApplied;
    match e
    case Char(c) => TypedKept(s, c);
    case Backspace => WentBackKept(s);
    case DeleteWord => WordDeletedKept(s);
    case ClearAll => AllClearedKept(s);
    case Suggestion(w) => SuggestionKept(s, w);
    case _ =>
  }

  lemma FieldSetKept(s: State, f: Field)
    requires OnGrid(s)
    ensures OnGrid(FieldSet(s, f))
  {
    FieldsFree(s, FieldSet(s, f));
  }

  lemma EntryKept(lib: Library, s: State, e: Event)
    requires OnGrid(s)
    ensures var t := OnEntry(lib, s, e);
            OnGrid(t) || (t == s.(page := Review, wallet := t.wallet) && GridLaidOut(t) && ReadyToWrite(lib, t))
  {
    hide OnGrid, OnTyping, CursorSet, FieldSet, WordCountSet, Derived, Returned, GridLaidOut, ReadyToWrite;
    if e.ChooseWordCount? {
      WordCountKept(s, e.words);
    } else if e.CycleWordCount? {
      WordCountKept(s, NextWordCount(s.wordCount));
    } else if e.Cell? {
      FieldSetKept(s, Words);
      CursorKept(if s.field != Words then FieldSet(s, Words) else s, e.index);
    } else if e.Cursor? {
      CursorKept(s, e.index);
    } else if e.Move? {
      CursorKept(s, s.cursor + e.delta);
    } else if e.PickField? {
      FieldSetKept(s, e.field);
    } else if e.NextField? {
      FieldSetKept(s, Words);
      FieldSetKept(s, Passphrase);
      FieldSetKept(s, Again);
    } else if e.Return? {
      ReturnedKept(lib, s, e.ready);
    } else if e.Derive? {
      DerivedKept(lib, s);
    } else {
      TypingKept(s, e);
    }
  }

  lemma ReviewKept(lib: Library, s: State, e: Event)
    requires Sound(lib, s) && s.shown && s.page == Review
    ensures Sound(lib, OnReview(lib, s, e))
  {
    FullGridIsNormal(s.texts.mnemonic);
    hide Slots, Normalised, FirstEmpty;
  }

  lemma NameKept(lib: Library, s: State, e: Event)
    requires Sound(lib, s) && s.shown && s.page == Name
    ensures Sound(lib, OnName(s, e))
  {
    hide Slots;
  }

  lemma EnteredSound(lib: Library, s: State)
    requires Sound(lib, s)
    ensures OnGrid(Entered(s))
  {
    EmptyGrid(s.wordCount);
    hide Slots, SlotCountSet;
  }

  lemma TypedFrame(s: State, c: char)
    ensures var t := Typed(s, c); t.page == s.page && t.wordCount == s.wordCount
  {
    hide Slots, SlotAppended, AppendFits, SlotLen, Appended, Fits;
  }

  lemma WentBackFrame(s: State)
    ensures var t := WentBack(s); t.page == s.page && t.wordCount == s.wordCount
  {
    hide Slots, SlotBackspaced, SlotLen, Backspaced;
  }

  lemma ResultKept(s: State, e: Event)
    ensures var t := OnTyping(s, e); t.page == s.page && t.wordCount == s.wordCount
  {
    if e.Char? {
      TypedFrame(s, e.c);
    }
    WentBackFrame(s);
    hide Typed, WentBack, SlotCountSet, SlotSet, SlotCleared, IsCell, WordBackspaced;
  }

  lemma StepKeepsSound(lib: Library, s: State, e: Event)
    requires Sound(lib, s)
    ensures Sound(lib, Step(lib, s, e))
  {
    if !s.shown {
      if e.Enter? {
        EnteredSound(lib, s);
      }
    } else if !e.Enter? && !e.Elsewhere? && !e.Leave? {
      if s.page == Entry {
        EntryKept(lib, s, e);
      } else if s.page == Review {
        ReviewKept(lib, s, e);
      } else if s.page == Name {
        NameKept(lib, s, e);
      } else {
        ResultKept(s, e);
      }
    }
    hide GridLaidOut, ReadyToWrite, OnEntry, OnReview, OnName, OnTyping, Entered;
  }

  lemma {:induction false} RunsStaySound(lib: Library, s: State, events: seq<Event>)
    requires Sound(lib, s)
    ensures Sound(lib, Run(lib, s, events))
    decreases |events|
  {
    if events != [] {
      hide Sound, Step;
      StepKeepsSound(lib, s, events[0]);
      RunsStaySound(lib, Step(lib, s, events[0]), events[1..]);
    }
  }

  // --- what follows for the operator -------------------------------------------------------

  /** Whatever is typed, clicked or chosen, the grid keeps its shape, and so no edit of
      it is ever refused for lack of room. */
  lemma GridNeverRefuses(lib: Library, events: seq<Event>, c: char, w: string, n: int)
    requires IsLetter(c) && IsCell(w) && IsWordCount(n)
    ensures var s := Run(lib, START, events);
            s.shown && s.page != Result ==>
              && GridLaidOut(s) && |s.texts.mnemonic| <= 215
              && (SlotLen(s.texts.mnemonic, s.cursor) < MAX_WORD_LENGTH ==> AppendFits(s.texts.mnemonic, s.cursor, c))
              && SetFits(s.texts.mnemonic, s.cursor, w)
              && CountFits(s.texts.mnemonic, n)
  {
    RunsStaySound(lib, START, events);
    var s := Run(lib, START, events);
    if s.shown && s.page != Result {
      GridLength(s.texts.mnemonic);
      EditsKeepCells(s.texts.mnemonic, s.cursor, c, w);
      LayoutFits(s.texts.mnemonic, n);
    }
    hide Slots, Run, AppendFits, SetFits, CountFits;
  }

  /** A file that is written describes the words, the passphrase and the account then on
      the screen; and deriving from them left them as they were. */
  lemma WrittenIsShown(lib: Library, events: seq<Event>, e: Event)
    ensures var s := Run(lib, START, events);
            s.shown && s.page == Name && Step(lib, s, e).page == Result ==>
              && AllFilled(Slots(s.texts.mnemonic)) && Normalised(s.texts.mnemonic) == s.texts.mnemonic
              && PassReady(s) && s.wallet.Some?
              && s.wallet == ExportFrom(lib, s.texts.mnemonic, s.texts.passphrase, s.account)
              && Step(lib, s, e).texts == WIPED
  {
    RunsStaySound(lib, START, events);
    var s := Run(lib, START, events);
    if s.shown && s.page == Name {
      FullGridIsNormal(s.texts.mnemonic);
    }
    hide Slots, Run, Normalised;
  }

  /** The save-as page shows an empty export exactly when the account shown gives none
      with the words and the passphrase typed; and then nothing can be written from it. */
  lemma EmptyExportExactly(lib: Library, events: seq<Event>)
    ensures var s := Run(lib, START, events);
            s.shown && s.page == Name ==>
              && (s.wallet == None <==> ExportFrom(lib, s.texts.mnemonic, s.texts.passphrase, s.account) == None)
              && (s.wallet == None <==> forall written :: Step(lib, s, Write(written)) == s)
  {
    RunsStaySound(lib, START, events);
    var s := Run(lib, START, events);
    if s.shown && s.page == Name && s.wallet.Some? {
      assert Step(lib, s, Write(true)).page == Result;
    }
    hide Slots, Run, ExportFrom, GridLaidOut;
  }

  // --- a run to an empty export ------------------------------------------------------------------

  function Suggestions(w: seq<string>): seq<Event> {
    seq(|w|, i requires 0 <= i < |w| => Suggestion(w[i]))
  }

  /** The first k cells hold the first k words. */
  predicate FilledUpTo(s: State, w: seq<string>, k: nat) {
    && OnGrid(s) && k <= |w| == s.wordCount && s.texts.passphrase == "" && s.account == 0
    && Slots(s.texts.mnemonic) == w[..k] + Empties(|w| - k)
    && s.cursor == if k < |w| then k else |w| - 1
  }

  lemma OneMoreWord(lib: Library, s: State, w: seq<string>, k: nat)
    requires IsPhrase(w) && k < |w| && FilledUpTo(s, w, k)
    ensures FilledUpTo(Step(lib, s, Suggestion(w[k])), w, k + 1)
  {
    assert IsCell(w[k]) && w[k] != "";
    FilledGrid(s, w, k);
    hide *;
    EditsKeepCells(s.texts.mnemonic, k, 'a', w[k]);
    SuggestionKept(s, w[k]);
    CellIsSpaceless(w[k]);
    WordSet(s.texts.mnemonic, k, w[k]);
    SuggestionIs(lib, s, w[k]);
    FilledNext(s, SuggestionApplied(s, w[k]), w, k);
  }

  lemma FilledGrid(s: State, w: seq<string>, k: nat)
    requires k < |w| && FilledUpTo(s, w, k)
    ensures OnGrid(s) && s.shown && s.page == Entry && s.cursor == k && IsLetter('a') && s.wordCount == |w|
    ensures AllCells(Slots(s.texts.mnemonic)) && k < |Slots(s.texts.mnemonic)| <= 24
  {
    GridSize(s);
    hide Slots;
  }

  lemma FilledNext(s: State, t: State, w: seq<string>, k: nat)
    requires k < |w| && FilledUpTo(s, w, k) && OnGrid(t)
    requires k < |Slots(s.texts.mnemonic)| && Slots(t.texts.mnemonic) == Slots(s.texts.mnemonic)[k := w[k]]
    requires t.wordCount == s.wordCount && t.texts.passphrase == s.texts.passphrase && t.account == s.account
    requires t.cursor == if s.cursor + 1 < s.wordCount then s.cursor + 1 else s.cursor
    ensures FilledUpTo(t, w, k + 1)
  {
    hide Slots, OnGrid;
    assert (w[..k] + Empties(|w| - k))[k := w[k]] == w[..k + 1] + Empties(|w| - k - 1);
  }

  lemma SuggestionIs(lib: Library, s: State, w: string)
    requires s.shown && s.page == Entry && IsCell(w) && w != ""
    ensures Step(lib, s, Suggestion(w)) == SuggestionApplied(s, w)
    ensures var t := SuggestionApplied(s, w);
            && t.texts.mnemonic == SlotSet(s.texts.mnemonic, s.cursor, w) && t.texts.passphrase == s.texts.passphrase
            && t.wordCount == s.wordCount && t.account == s.account
            && t.cursor == if s.cursor + 1 < s.wordCount then s.cursor + 1 else s.cursor
  {
    hide SlotSet, IsCell;
  }

  lemma WordSet(t: string, i: nat, x: string)
    requires i < |Slots(t)| && SetFits(t, i, x) && Spaceless(x)
    ensures Slots(SlotSet(t, i, x)) == Slots(t)[i := x]
  {
    hide Slots;
  }

  lemma {:induction false} FillGrid(lib: Library, s: State, w: seq<string>, k: nat)
    requires IsPhrase(w) && k <= |w| && FilledUpTo(s, w, k)
    ensures FilledUpTo(Run(lib, s, Suggestions(w[k..])), w, |w|)
    decreases |w| - k
  {
    hide FilledUpTo, Step, IsPhrase;
    if k == |w| {
      assert Suggestions(w[k..]) == [];
    } else {
      OneMoreWord(lib, s, w, k);
      var rest := Suggestions(w[k..]);
      assert rest[0] == Suggestion(w[k]) && rest[1..] == Suggestions(w[k + 1..]);
      FillGrid(lib, Step(lib, s, Suggestion(w[k])), w, k + 1);
    }
  }

  lemma EmptyGridEntered(lib: Library, w: seq<string>)
    requires |w| == 12
    ensures FilledUpTo(Step(lib, START, Enter), w, 0)
  {
    EmptyGrid(12);
    SlotsOfEmpty();
    assert CountFits("", 12);
    SlotCountSetSlots("", 12);
    assert [""] + Empties(11) == w[..0] + Empties(12);
    hide Slots, SlotCountSet;
  }

  lemma {:induction false} RunConcatenation(lib: Library, s: State, a: seq<Event>, b: seq<Event>)
    ensures Run(lib, s, a + b) == Run(lib, Run(lib, s, a), b)
    decreases |a|
  {
    hide Step;
    if a == [] {
      assert a + b == b;
    } else {
      assert (a + b)[0] == a[0] && (a + b)[1..] == a[1..] + b;
      RunConcatenation(lib, Step(lib, s, a[0]), a[1..], b);
    }
  }

  lemma RunOfThree(lib: Library, s: State, a: Event, b: Event, c: Event)
    ensures Run(lib, s, [a, b, c]) == Step(lib, Step(lib, Step(lib, s, a), b), c)
  {
    hide Step;
    assert [a, b, c][1..] == [b, c] && [b, c][1..] == [c] && [c][1..] == [];
    assert Run(lib, Step(lib, Step(lib, s, a), b), [c]) == Step(lib, Step(lib, Step(lib, s, a), b), c);
  }

  lemma FullGridText(s: State, w: seq<string>)
    requires IsPhrase(w) && FilledUpTo(s, w, |w|)
    ensures s.texts.mnemonic == Sentence(w) && Normalised(s.texts.mnemonic) == s.texts.mnemonic
    ensures FirstEmpty(Slots(s.texts.mnemonic)) == s.wordCount
    ensures s.shown && s.page == Entry && s.texts.passphrase == "" && s.account == 0
  {
    assert w[..|w|] + Empties(0) == w;
    NoneEmpty(w);
    JoinOfSlots(s.texts.mnemonic);
    FullGridIsNormal(s.texts.mnemonic);
    hide Slots, Normalised, FirstEmpty, Join;
  }

  lemma DerivedIs(lib: Library, s: State)
    requires s.shown && s.page == Entry && s.texts.passphrase == "" && Normalised(s.texts.mnemonic) == s.texts.mnemonic
    requires FirstEmpty(Slots(s.texts.mnemonic)) == s.wordCount
    ensures var wallet := ExportFrom(lib, s.texts.mnemonic, "", s.account);
            Step(lib, s, Derive) == s.(wallet := wallet, page := if wallet.Some? then Review else Entry)
  {
    hide Slots, Normalised, FirstEmpty, ExportFrom;
  }

  lemma AccountIs(lib: Library, s: State, account: nat)
    requires s.shown && s.page == Review && Normalised(s.texts.mnemonic) == s.texts.mnemonic
    requires FirstEmpty(Slots(s.texts.mnemonic)) == s.wordCount && account <= MAX_ACCOUNT
    ensures var wallet := ExportFrom(lib, s.texts.mnemonic, s.texts.passphrase, account);
            Step(lib, s, Account(account)) == s.(account := account, wallet := wallet)
  {
    hide Slots, Normalised, FirstEmpty, ExportFrom;
  }

  lemma ShowNameIs(lib: Library, s: State)
    requires s.shown && s.page == Review
    ensures Step(lib, s, ShowName) == s.(page := Name)
  {
  }

  lemma DerivedThenLost(lib: Library, s: State, w: seq<string>, account: nat)
    requires IsPhrase(w) && FilledUpTo(s, w, |w|) && account <= MAX_ACCOUNT
    requires ExportFrom(lib, Sentence(w), "", 0).Some? && ExportFrom(lib, Sentence(w), "", account) == None
    ensures var t := Step(lib, Step(lib, Step(lib, s, Derive), Account(account)), ShowName);
            t.shown && t.page == Name && t.wallet == None && t.account == account
  {
    hide *;
    FullGridText(s, w);
    DerivedIs(lib, s);
    var t := Step(lib, s, Derive);
    AccountIs(lib, t, account);
    ShowNameIs(lib, Step(lib, t, Account(account)));
  }

  /** Such a run: on a machine on which account 0 of a 12-word phrase derives and another
      account does not, choosing the words, deriving and picking that account leads to
      the save-as page with nothing to save. */
  lemma EmptyExportReachesName(lib: Library, w: seq<string>, account: nat)
    requires IsPhrase(w) && |w| == 12 && account <= MAX_ACCOUNT
    requires ExportFrom(lib, Sentence(w), "", 0).Some? && ExportFrom(lib, Sentence(w), "", account) == None
    ensures var s := Run(lib, START, [Enter] + Suggestions(w) + [Derive, Account(account), ShowName]);
            s.shown && s.page == Name && s.wallet == None && forall written :: Step(lib, s, Write(written)) == s
  {
    var a, b := [Enter] + Suggestions(w), [Derive, Account(account), ShowName];
    RunConcatenation(lib, START, a, b);
    RunConcatenation(lib, START, [Enter], Suggestions(w));
    EmptyGridEntered(lib, w);
    assert Run(lib, START, [Enter]) == Step(lib, START, Enter) by {
      assert [Enter][1..] == [];
      hide Step;
    }
    assert w[0..] == w;
    FillGrid(lib, Step(lib, START, Enter), w, 0);
    var s := Run(lib, START, a);
    DerivedThenLost(lib, s, w, account);
    RunOfThree(lib, s, Derive, Account(account), ShowName);
    hide Run, ExportFrom, FilledUpTo, IsPhrase;
  }
}
