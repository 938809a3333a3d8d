// The wallet creation wizard, without its widgets: pages, buffers and the events
// that lead from one page to the next.
module CreateWizard {
  import opened Wrappers
  import opened Sequences
  import opened SlotText
  import opened SecureText
  import opened Mnemonics
  import opened Grid
  import opened SecretBuffers
  import opened WalletExports

  datatype Page = Intro | Entropy | Seed | Verify | Passphrase | Confirm | Name | Result

  // `physical` says that the machine has keys of its own, `keys` that the floating
  // keyboard is up. `offered` and `row` are what the words suggested there and on the
  // verification page begin with, empty when there are none. `wallet` is the export.
  datatype State = State(physical: bool, shown: bool, page: Page, texts: Texts, cursor: nat, verified: bool,
                         confirming: bool, keys: bool, offered: string, row: string, wordCount: nat,
                         generated: string, wallet: Option<WalletExport>)

  datatype Event =
    | Enter
    | Leave
    | Elsewhere(texts: Texts)               // another screen uses the buffers
    | ChooseWordCount(words: nat)
    | Continue
    | EntropyBack
    | Generate(outcome: Generation)
    | Discard
    | WordsWritten
    | VerifyChar(c: char)
    | VerifyMove(delta: int)
    | VerifyCell(index: int)
    | VerifyBackspace
    | VerifyDeleteWord
    | VerifyClear
    | Suggestion(word: string)
    | ShowWords
    | VerifyEnter
    | VerifyContinue
    | PassChar(c: char)
    | PassBackspace
    | PassDeleteWord
    | PassClear
    | PassField(again: bool)
    | PassOther
    | PassEnter
    | PassContinue
    | PassBack
    | ConfirmBack
    | ShowName
    | NameBack
    | Write(written: bool)
    | ToggleKeys
    | HideKeys

  /** The entropy pool may refuse, the words may fail to be made, or there they are. */
  datatype Generation = Refused | Failed | Phrase(words: seq<string>)

  const START := (physical: bool) =>
    State(physical, false, Intro, WIPED, 0, false, false, false, "", "", 12, "", None)

  // --- the handlers ------------------------------------------------------------------

  function Wiped(s: State): State {
    s.(texts := WIPED, cursor := 0, verified := false, confirming := false, row := "")
  }

  function Cells(s: State): nat {
    |Words(s.texts.mnemonic)|
  }

  /** A cell, cut to the room its copy has. */
  function Prefix(t: string, i: nat): string {
    var x := if i < |Slots(t)| then Slots(t)[i] else "";
    if |x| <= MAX_WORD_LENGTH + 1 then x else x[..MAX_WORD_LENGTH + 1]
  }

  /** refreshVerify(): the verdict is computed anew after every edit, and so are the
      suggestions, on the floating keyboard or on the page. */
  function Refreshed(s: State): State {
    var total := Cells(s);
    var cursor := if s.cursor >= total then (if total == 0 then 0 else total - 1) else s.cursor;
    var cell := Prefix(s.texts.retyped, cursor);
    var onKeys := s.keys && s.page == Verify;
    s.(cursor := cursor,
       verified := Complete(Slots(s.texts.retyped), Slots(s.texts.mnemonic)),
       offered := if onKeys then cell else "", row := if onKeys then "" else cell)
  }

  function Retyped(s: State, t: string): State {
    Refreshed(s.(texts := s.texts.(retyped := t)))
  }

  function CursorSet(s: State, index: int): State {
    var cells := Cells(s);
    if cells <= 0 then s
    else
      var i := if index < 0 then 0 else if index > cells - 1 then cells - 1 else index;
      if i == s.cursor then s else Refreshed(s.(cursor := i))
  }

  function SlotLen(t: string, i: nat): nat {
    if i < |Slots(t)| then |Slots(t)[i]| else 0
  }

  function VerifyTyped(s: State, c: char): State {
    if !IsLetter(c) && c != ' ' then s
    else if c == ' ' then CursorSet(s, s.cursor + 1)
    else if SlotLen(s.texts.retyped, s.cursor) >= MAX_WORD_LENGTH then s
    else if !AppendFits(s.texts.retyped, s.cursor, c) then s
    else Retyped(s, SlotAppended(s.texts.retyped, s.cursor, c))
  }

  function VerifyBackspaced(s: State): State {
    if SlotLen(s.texts.retyped, s.cursor) == 0 then
      if s.cursor > 0 then CursorSet(s, s.cursor - 1) else s
    else Retyped(s, SlotBackspaced(s.texts.retyped, s.cursor))
  }

  function VerifyCleared(s: State): State {
    Retyped(s.(cursor := 0), SlotCountSet("", Cells(s)))
  }

  /** A word of the list that completes what was typed. */
  predicate Completes(prefix: string, w: string) {
    IsCell(w) && prefix != "" && prefix <= w
  }

  /** A button with this word can be pressed. */
  predicate Offers(s: State, w: string) {
    (s.keys && Completes(s.offered, w)) || (s.page == Verify && Completes(s.row, w))
  }

  function SuggestionApplied(s: State, w: string): State {
    if w == "" then s
    else
      var t := s.(texts := s.texts.(retyped := SlotSet(s.texts.retyped, s.cursor, w)));
      if s.cursor + 1 < Cells(s) then CursorSet(t, s.cursor + 1) else Refreshed(t)
  }

  function PassRefreshed(s: State): State {
    if s.texts.passphrase == "" then s.(texts := s.texts.(again := ""), confirming := false) else s
  }

  function PassFieldSet(s: State, again: bool): State {
    PassRefreshed(s.(confirming := again && s.texts.passphrase != ""))
  }

  /** An edit of the field being typed into. */
  function PassEdited(s: State, t: string): State {
    PassRefreshed(if s.confirming then s.(texts := s.texts.(again := t)) else s.(texts := s.texts.(passphrase := t)))
  }

  function PassText(s: State): string {
    if s.confirming then s.texts.again else s.texts.passphrase
  }

  predicate PassConfirmed(s: State) {
    s.texts.passphrase == s.texts.again
  }

  function PassLeft(s: State): State {
    if s.texts.passphrase == "" || PassConfirmed(s) then GoneTo(s, Confirm) else PassFieldSet(s, true)
  }

  /** Enter goes into the second entry first, and only then onwards. */
  function PassEntered(s: State): State {
    if !s.confirming && s.texts.passphrase != "" && !PassConfirmed(s) then PassFieldSet(s, true) else PassLeft(s)
  }

  function GoneTo(s: State, page: Page): State {
    var t := s.(page := page);
    match page
    case Verify => Retyped(t.(keys := !s.physical), SlotCountSet(t.texts.retyped, Cells(t)))
    case Passphrase => PassRefreshed(t.(offered := "", keys := !s.physical))
    case Confirm => t.(keys := false)
    case _ => t
  }

  function Generated(s: State, g: Generation): State {
    match g
    case Refused => s
    case Failed => s.(texts := s.texts.(mnemonic := ""))
    case Phrase(w) =>
      if !IsPhrase(w) then s.(texts := s.texts.(mnemonic := ""))
      else
        var m := Sentence(w);
        GoneTo(s.(texts := s.texts.(mnemonic := m, retyped := ""), verified := false, generated := m), Seed)
  }

  /** One event; one that the page in view does not offer changes nothing. */
  function Step(lib: Library, s: State, e: Event): State {
    match e
    case Enter => if s.shown then s else GoneTo(Wiped(s).(shown := true, wallet := None), Intro)
    case Elsewhere(t) => if s.shown then s else s.(texts := t)
    case _ => if s.shown then Handled(lib, s, e) else s
  }

  function Handled(lib: Library, s: State, e: Event): State {
    match e
    case Leave => Wiped(s).(shown := false)
    case Suggestion(w) => if Offers(s, w) then SuggestionApplied(s, w) else s
    case HideKeys => s.(keys := false)
    case ToggleKeys => if s.page in {Verify, Passphrase, Name} then s.(keys := !s.keys) else s
    case _ => OnPage(lib, s, e)
  }

  function OnPage(lib: Library, s: State, e: Event): State {
    match s.page
    case Intro => OnIntro(s, e)
    case Entropy => OnEntropy(s, e)
    case Seed => OnSeed(s, e)
    case Verify => OnVerify(s, e)
    case Passphrase => OnPassphrase(s, e)
    case Confirm => OnConfirm(lib, s, e)
    case Name => OnName(s, e)
    case Result => s
  }

  function OnIntro(s: State, e: Event): State {
    match e
    case ChooseWordCount(n) => if IsWordCount(n) then s.(wordCount := n) else s
    case Continue => GoneTo(s, Entropy)
    case _ => s
  }

  function OnEntropy(s: State, e: Event): State {
    match e
    case EntropyBack => GoneTo(s, Intro)
    case Generate(g) => Generated(s, g)
    case _ => s
  }

  function OnSeed(s: State, e: Event): State {
    match e
    case Discard => GoneTo(Wiped(s), Intro)
    case WordsWritten => GoneTo(s, Verify)
    case _ => s
  }

  function OnConfirm(lib: Library, s: State, e: Event): State {
    match e
    case ConfirmBack => GoneTo(s, Passphrase)
    case ShowName =>
      var wallet := ExportFrom(lib, s.texts.mnemonic, s.texts.passphrase, 0);
      if wallet.Some? then s.(wallet := wallet, page := Name, keys := !s.physical) else s.(wallet := None)
    case _ => s
  }

  function OnName(s: State, e: Event): State {
    match e
    case NameBack => GoneTo(s, Confirm)
    case Write(written) => if written then Wiped(s).(page := Result) else s
    case _ => s
  }

  function OnVerify(s: State, e: Event): State {
    match e
    case VerifyChar(c) => VerifyTyped(s, c)
    case VerifyMove(delta) => CursorSet(s, s.cursor + delta)
    case VerifyCell(index) => CursorSet(s, index)
    case VerifyBackspace => VerifyBackspaced(s)
    case VerifyDeleteWord => Retyped(s, SlotCleared(s.texts.retyped, s.cursor))
    case VerifyClear => VerifyCleared(s)
    case ShowWords => GoneTo(s, Seed)
    case VerifyEnter => if s.verified then GoneTo(s, Passphrase) else CursorSet(s, s.cursor + 1)
    case VerifyContinue => if s.verified then GoneTo(s, Passphrase) else s
    case _ => s
  }

  function OnPassphrase(s: State, e: Event): State {
    match e
    case PassField(again) => PassFieldSet(s, again)
    case PassOther => PassFieldSet(s, !s.confirming)
    case PassEnter => PassEntered(s)
    case PassContinue => PassLeft(s)
    case PassBack => GoneTo(s, Verify)
    case _ => OnPassphraseKey(s, e)
  }

  function OnPassphraseKey(s: State, e: Event): State {
    match e
    case PassChar(c) => if IsPrintable(c) then PassEdited(s, Appended(PassText(s), [c])) else s
    case PassBackspace => PassEdited(s, Backspaced(PassText(s)))
    case PassDeleteWord => PassEdited(s, WordBackspaced(PassText(s)))
    case PassClear => PassEdited(s, "")
    case _ => s
  }

  function Run(lib: Library, s: State, events: seq<Event>): State
    decreases |events|
  {
    if events == [] then s else Run(lib, Step(lib, s, events[0]), events[1..])
  }

  // --- the invariant of every run -------------------------------------------------------

  predicate HasWords(p: Page) {
    p in {Seed, Verify, Passphrase, Confirm, Name}
  }

  /** The grids fit each other, and neither the verdict nor a suggestion is ever stale. */
  predicate GridsAgree(s: State) {
    && |Slots(s.texts.retyped)| <= |Slots(s.texts.mnemonic)|
    && (s.texts.mnemonic != "" ==> Cells(s) == |Slots(s.texts.mnemonic)|)
    && (s.verified ==> s.texts.retyped == s.texts.mnemonic)
    && (s.page == Verify ==> {s.offered, s.row} <= {"", Prefix(s.texts.retyped, s.cursor)})
  }

  predicate PagesGuarded(lib: Library, s: State) {
    && (s.page in {Passphrase, Confirm, Name} ==> s.verified && s.offered == "")
    && (s.page in {Confirm, Name} ==> s.texts.passphrase == "" || PassConfirmed(s))
    && (s.page == Name ==>
          s.wallet.Some? && s.wallet == ExportFrom(lib, s.texts.mnemonic, s.texts.passphrase, 0))
    && (HasWords(s.page) ==> s.texts.mnemonic == s.generated != "")
    && (!HasWords(s.page) ==> s.texts.mnemonic == s.texts.passphrase == s.texts.again == "")
    && (s.page == Result ==> s.texts.retyped == "" && s.offered == "")
  }

  predicate Good(lib: Library, s: State) {
    GridsAgree(s) && PagesGuarded(lib, s)
  }

  predicate Sound(lib: Library, s: State) {
    s.shown ==> Good(lib, s)
  }

  /** Pages on which the verification grid may change. */
  predicate GridOpen(lib: Library, s: State) {
    Good(lib, s) && s.page !in {Passphrase, Confirm, Name, Result}
  }

  /** Recomputing the verdict makes it right, whatever it was. */
  lemma RefreshIsRight(s: State)
    requires |Slots(s.texts.retyped)| <= |Slots(s.texts.mnemonic)|
    requires s.texts.mnemonic != "" ==> Cells(s) == |Slots(s.texts.mnemonic)|
    ensures GridsAgree(Refreshed(s))
  {
    hide Slots, Words, Complete;
    if Complete(Slots(s.texts.retyped), Slots(s.texts.mnemonic)) {
      CompleteMeansSameText(s.texts.retyped, s.texts.mnemonic);
    }
  }

  lemma RetypedGood(lib: Library, s: State, cursor: nat, t: string)
    requires GridOpen(lib, s) && |Slots(t)| <= |Slots(s.texts.mnemonic)|
    ensures GridOpen(lib, Retyped(s.(cursor := cursor), t))
  {
    RefreshIsRight(s.(texts := s.texts.(retyped := t), cursor := cursor));
    hide Slots, Words, Complete;
  }

  lemma CountKept(lib: Library, s: State)
    requires GridOpen(lib, s)
    ensures |Slots(s.texts.retyped)| <= |Slots(s.texts.mnemonic)|
  {
    hide Slots, Words;
  }

  lemma CursorSetGood(lib: Library, s: State, index: int)
    requires GridOpen(lib, s)
    ensures GridOpen(lib, CursorSet(s, index))
  {
    hide GridOpen, Words, Slots, Complete, Cells;
    var cells := Cells(s);
    if cells > 0 {
      var i := if index < 0 then 0 else if index > cells - 1 then cells - 1 else index;
      CountKept(lib, s);
      RetypedGood(lib, s, i, s.texts.retyped);
      assert s.(cursor := i).(texts := s.(cursor := i).texts.(retyped := s.texts.retyped)) == s.(cursor := i);
    }
  }

  lemma TypedIs(s: State, c: char)
    ensures var t := VerifyTyped(s, c);
            || t == s || t == CursorSet(s, s.cursor + 1)
            || t == Retyped(s.(cursor := s.cursor), SlotAppended(s.texts.retyped, s.cursor, c))
  {
    hide CursorSet, Retyped, SlotAppended, AppendFits, SlotLen;
  }

  lemma TypedGood(lib: Library, s: State, c: char)
    requires GridOpen(lib, s)
    ensures GridOpen(lib, VerifyTyped(s, c))
  {
    hide *;
    TypedIs(s, c);
    CursorSetGood(lib, s, s.cursor + 1);
    CountKept(lib, s);
    EditsKeepCount(s.texts.retyped, s.cursor, c, "");
    RetypedGood(lib, s, s.cursor, SlotAppended(s.texts.retyped, s.cursor, c));
  }

  lemma BackspacedIs(s: State)
    ensures var t := VerifyBackspaced(s);
            || t == s || t == CursorSet(s, s.cursor - 1)
            || t == Retyped(s.(cursor := s.cursor), SlotBackspaced(s.texts.retyped, s.cursor))
  {
    hide CursorSet, Retyped, SlotBackspaced, SlotLen;
  }

  lemma BackspacedGood(lib: Library, s: State)
    requires GridOpen(lib, s)
    ensures GridOpen(lib, VerifyBackspaced(s))
  {
    hide *;
    BackspacedIs(s);
    CursorSetGood(lib, s, s.cursor - 1);
    CountKept(lib, s);
    EditsKeepCount(s.texts.retyped, s.cursor, 'a', "");
    RetypedGood(lib, s, s.cursor, SlotBackspaced(s.texts.retyped, s.cursor));
  }

  lemma DeletedGood(lib: Library, s: State)
    requires GridOpen(lib, s)
    ensures GridOpen(lib, Retyped(s, SlotCleared(s.texts.retyped, s.cursor)))
  {
    CountKept(lib, s);
    EditsKeepCount(s.texts.retyped, s.cursor, 'a', "");
    RetypedGood(lib, s, s.cursor, SlotCleared(s.texts.retyped, s.cursor));
  }

  lemma LayoutKept(s: State, t: string)
    requires GridsAgree(s) && |Slots(t)| <= |Slots(s.texts.mnemonic)|
    ensures |Slots(SlotCountSet(t, Cells(s)))| <= |Slots(s.texts.mnemonic)|
  {
    LayoutCount(t, Cells(s));
    WordsOfEmpty();
    hide Slots, Words, SlotCountSet;
  }

  lemma ClearedGood(lib: Library, s: State)
    requires GridOpen(lib, s)
    ensures GridOpen(lib, VerifyCleared(s))
  {
    SlotsOfEmpty();
    CountKept(lib, s);
    LayoutKept(s, "");
    hide GridOpen, Slots, Words, SlotCountSet;
    RetypedGood(lib, s, 0, SlotCountSet("", Cells(s)));
  }

  lemma SuggestionIs(s: State, w: string)
    ensures var t := SlotSet(s.texts.retyped, s.cursor, w);
            || SuggestionApplied(s, w) == s
            || SuggestionApplied(s, w) == Retyped(s.(cursor := s.cursor), t)
            || SuggestionApplied(s, w) == Retyped(s.(cursor := s.cursor + 1), t)
  {
    hide Refreshed, Words, SlotSet;
  }

  lemma SuggestionGood(lib: Library, s: State, w: string)
    requires GridOpen(lib, s)
    ensures GridOpen(lib, SuggestionApplied(s, w))
  {
    hide *;
    SuggestionIs(s, w);
    CountKept(lib, s);
    EditsKeepCount(s.texts.retyped, s.cursor, 'a', w);
    var t := SlotSet(s.texts.retyped, s.cursor, w);
    RetypedGood(lib, s, s.cursor, t);
    RetypedGood(lib, s, s.cursor + 1, t);
  }

  lemma ToVerifyIs(s: State)
    ensures GoneTo(s, Verify) ==
      Refreshed(s.(page := Verify, keys := !s.physical,
                   texts := s.texts.(retyped := SlotCountSet(s.texts.retyped, Cells(s)))))
  {
    hide Refreshed, SlotCountSet, Words;
  }

  lemma VerifyPageGood(lib: Library, s: State)
    requires GridsAgree(Refreshed(s)) && s.page == Verify && s.texts.mnemonic == s.generated != ""
    ensures Good(lib, Refreshed(s))
  {
    hide GridsAgree, Slots, Words, Complete;
  }

  lemma ToVerifyGood(lib: Library, s: State)
    requires Good(lib, s) && HasWords(s.page)
    ensures Good(lib, GoneTo(s, Verify))
  {
    hide Slots, Words, SlotCountSet, Refreshed;
    LayoutKept(s, s.texts.retyped);
    var t := s.(page := Verify, keys := !s.physical,
                texts := s.texts.(retyped := SlotCountSet(s.texts.retyped, Cells(s))));
    RefreshIsRight(t);
    VerifyPageGood(lib, t);
    ToVerifyIs(s);
  }

  lemma ToPassphraseGood(lib: Library, s: State)
    requires Good(lib, s) && HasWords(s.page) && s.verified
    ensures Good(lib, GoneTo(s, Passphrase))
  {
    hide Slots, Words;
  }

  lemma VerifyGood(lib: Library, s: State, e: Event)
    requires Good(lib, s) && s.page == Verify
    ensures Good(lib, OnVerify(s, e))
  {
    hide Good, VerifyTyped, CursorSet, VerifyBackspaced, Retyped, VerifyCleared, GoneTo, SlotCleared;
    match e
    case VerifyChar(c) => TypedGood(lib, s, c);
    case VerifyMove(delta) => CursorSetGood(lib, s, s.cursor + delta);
    case VerifyCell(index) => CursorSetGood(lib, s, index);
    case VerifyBackspace => BackspacedGood(lib, s);
    case VerifyDeleteWord => DeletedGood(lib, s);
    case VerifyClear => ClearedGood(lib, s);
    case ShowWords => ToSeedGood(lib, s);
    case VerifyEnter =>
      CursorSetGood(lib, s, s.cursor + 1);
      if s.verified {
        ToPassphraseGood(lib, s);
      }
    case VerifyContinue =>
      if s.verified {
        ToPassphraseGood(lib, s);
      }
    case _ =>
  }

  lemma ToSeedGood(lib: Library, s: State)
    requires Good(lib, s) && s.page == Verify
    ensures Good(lib, GoneTo(s, Seed))
  {
    hide Slots, Words;
  }

  /** Only the passphrase fields differ. */
  predicate PassOnly(s: State, t: State) {
    t == s.(texts := s.texts.(passphrase := t.texts.passphrase, again := t.texts.again), confirming := t.confirming)
  }

  lemma PassOnlyGood(lib: Library, s: State, t: State)
    requires Good(lib, s) && s.page == Passphrase && PassOnly(s, t)
    ensures Good(lib, t)
    ensures t.texts.passphrase == "" || PassConfirmed(t) ==> Good(lib, GoneTo(t, Confirm))
  {
    hide Slots, Words;
  }

  lemma FieldIs(s: State, again: bool)
    ensures PassOnly(s, PassFieldSet(s, again))
  {
  }

  lemma KeyIs(s: State, e: Event)
    ensures PassOnly(s, OnPassphraseKey(s, e))
  {
    hide Appended, Backspaced, WordBackspaced;
  }

  lemma LeftIs(s: State)
    ensures forall t | t == PassLeft(s) || t == PassEntered(s) ::
              PassOnly(s, t) || (t == GoneTo(s, Confirm) && (s.texts.passphrase == "" || PassConfirmed(s)))
  {
    FieldIs(s, true);
    hide GoneTo, PassFieldSet;
  }

  lemma PassphraseIs(s: State, e: Event)
    ensures var t := OnPassphrase(s, e);
            || PassOnly(s, t) || t == GoneTo(s, Verify)
            || (t == GoneTo(s, Confirm) && (s.texts.passphrase == "" || PassConfirmed(s)))
  {
    FieldIs(s, !s.confirming);
    if e.PassField? {
      FieldIs(s, e.again);
    }
    KeyIs(s, e);
    LeftIs(s);
    hide OnPassphraseKey, PassFieldSet, PassLeft, PassEntered, GoneTo, PassOnly;
  }

  lemma PassphraseGood(lib: Library, s: State, e: Event)
    requires Good(lib, s) && s.page == Passphrase
    ensures Good(lib, OnPassphrase(s, e))
  {
    hide *;
    PassphraseIs(s, e);
    InPassphrase(s);
    ToVerifyGood(lib, s);
    PassOnlyGood(lib, s, s);
    if PassOnly(s, OnPassphrase(s, e)) {
      PassOnlyGood(lib, s, OnPassphrase(s, e));
    }
  }

  lemma InPassphrase(s: State)
    requires s.page == Passphrase
    ensures HasWords(s.page) && PassOnly(s, s)
  {
  }

  lemma GeneratedIs(s: State, w: seq<string>)
    requires IsPhrase(w)
    ensures Generated(s, Phrase(w)) ==
      s.(texts := s.texts.(mnemonic := Sentence(w), retyped := ""), verified := false, generated := Sentence(w),
         page := Seed)
  {
    hide Sentence, IsPhrase;
  }

  lemma NewPhraseGood(lib: Library, s: State, m: string)
    requires Good(lib, s) && s.page == Entropy && m != "" && |Slots("")| <= |Slots(m)| == |Words(m)|
    ensures Good(lib, s.(texts := s.texts.(mnemonic := m, retyped := ""), verified := false, generated := m,
                         page := Seed))
  {
    hide Slots, Words;
  }

  lemma PhraseGood(lib: Library, s: State, w: seq<string>)
    requires Good(lib, s) && s.page == Entropy && IsPhrase(w)
    ensures Good(lib, Generated(s, Phrase(w)))
  {
    hide *;
    PhraseShape(w);
    SlotsOfEmpty();
    GeneratedIs(s, w);
    NewPhraseGood(lib, s, Sentence(w));
  }

  lemma NoPhraseGood(lib: Library, s: State, g: Generation)
    requires Good(lib, s) && s.page == Entropy && (g.Phrase? ==> !IsPhrase(g.words))
    ensures Good(lib, Generated(s, g))
  {
    hide Slots, Words, IsPhrase;
  }

  lemma WipedGood(lib: Library, s: State, page: Page)
    requires page in {Intro, Result} && (page == Result ==> s.offered == "")
    ensures Good(lib, Wiped(s).(page := page))
  {
    SlotsOfEmpty();
    hide Slots, Words;
  }

  lemma IntroGood(lib: Library, s: State, e: Event)
    requires Good(lib, s) && s.page == Intro
    ensures Good(lib, OnIntro(s, e))
  {
    hide Slots, Words;
  }

  lemma EntropyGood(lib: Library, s: State, e: Event)
    requires Good(lib, s) && s.page == Entropy
    ensures Good(lib, OnEntropy(s, e))
  {
    if e.Generate? {
      if e.outcome.Phrase? && IsPhrase(e.outcome.words) {
        PhraseGood(lib, s, e.outcome.words);
      } else {
        NoPhraseGood(lib, s, e.outcome);
      }
    }
    hide Slots, Words, Generated, IsPhrase;
  }

  lemma SeedGood(lib: Library, s: State, e: Event)
    requires Good(lib, s) && s.page == Seed
    ensures Good(lib, OnSeed(s, e))
  {
    WipedGood(lib, s, Intro);
    ToVerifyGood(lib, s);
    hide Good, Retyped;
  }

  lemma ConfirmGood(lib: Library, s: State, e: Event)
    requires Good(lib, s) && s.page == Confirm
    ensures Good(lib, OnConfirm(lib, s, e))
  {
    hide Slots, Words, GoneTo;
    if e.ConfirmBack? {
      ToPassphraseGood(lib, s);
    }
  }

  lemma NameGood(lib: Library, s: State, e: Event)
    requires Good(lib, s) && s.page == Name
    ensures Good(lib, OnName(s, e))
  {
    WipedGood(lib, s, Result);
    hide Slots, Words;
  }

  lemma PageGood(lib: Library, s: State, e: Event)
    requires Good(lib, s)
    ensures Good(lib, OnPage(lib, s, e))
  {
    hide Good, OnIntro, OnEntropy, OnSeed, OnVerify, OnPassphrase, OnConfirm, OnName;
    match s.page
    case Intro => IntroGood(lib, s, e);
    case Entropy => EntropyGood(lib, s, e);
    case Seed => SeedGood(lib, s, e);
    case Verify => VerifyGood(lib, s, e);
    case Passphrase => PassphraseGood(lib, s, e);
    case Confirm => ConfirmGood(lib, s, e);
    case Name => NameGood(lib, s, e);
    case Result =>
  }

  lemma StepKeepsSound(lib: Library, s: State, e: Event)
    requires Sound(lib, s)
    ensures Sound(lib, Step(lib, s, e))
  {
    hide Good, OnPage, SuggestionApplied;
    if s.shown {
      if e.Suggestion? {
        if Offers(s, e.word) {
          OfferedGridOpen(lib, s);
          SuggestionGood(lib, s, e.word);
          OpenIsGood(lib, SuggestionApplied(s, e.word));
        }
      } else if e.HideKeys? || e.ToggleKeys? {
        KeysGood(lib, s, false);
        KeysGood(lib, s, !s.keys);
      } else if !e.Leave? && !e.Enter? && !e.Elsewhere? {
        PageGood(lib, s, e);
      }
    } else if e.Enter? {
      WipedGood(lib, s.(shown := true, wallet := None), Intro);
    }
  }

  lemma KeysGood(lib: Library, s: State, keys: bool)
    requires Good(lib, s)
    ensures Good(lib, s.(keys := keys))
  {
    hide Slots, Words, Prefix;
  }

  lemma OpenIsGood(lib: Library, s: State)
    requires GridOpen(lib, s)
    ensures Good(lib, s)
  {
  }

  lemma OfferedGridOpen(lib: Library, s: State)
    requires Good(lib, s) && (s.page == Verify || s.offered != "")
    ensures GridOpen(lib, s)
  {
    hide GridsAgree;
  }

  lemma {:induction false} RunsStaySound(lib: Library, s: State, events: seq<Event>)
    requires Sound(lib, s)
    ensures Sound(lib, Run(lib, s, events))
    decreases |events|
  {
    if events != [] {
      hide Sound, Step;
      StepKeepsSound(lib, s, events[0]);
      RunsStaySound(lib, Step(lib, s, events[0]), events[1..]);
    }
  }

  /** Whatever is pressed, in whatever order: when a file can be written it was
      derived from the generated words, those words were typed back letter for
      letter, and the passphrase is empty or was typed twice. */
  lemma FileMatchesBackup(lib: Library, physical: bool, events: seq<Event>)
    ensures var s := Run(lib, START(physical), events);
            s.shown && s.page == Name ==>
              && s.wallet.Some? && s.wallet == ExportFrom(lib, s.generated, s.texts.passphrase, 0) && s.generated != ""
              && s.texts.retyped == s.texts.mnemonic == s.generated
              && (s.texts.passphrase == "" || s.texts.again == s.texts.passphrase)
  {
    RunsStaySound(lib, START(physical), events);
    hide Slots, Words, Run;
  }

  /** Once the file is written nothing secret is left. */
  lemma NothingLeftBehind(lib: Library, physical: bool, events: seq<Event>)
    ensures var s := Run(lib, START(physical), events); s.shown && s.page == Result ==> s.texts == WIPED
  {
    RunsStaySound(lib, START(physical), events);
    hide Slots, Words, Run;
  }

  // --- suggestions ----------------------------------------------------------------------------

  /** On the verification page every word offered completes the cell under the cursor. */
  lemma OffersCompleteCell(lib: Library, physical: bool, events: seq<Event>, w: string)
    ensures var s := Run(lib, START(physical), events);
            s.shown && s.page == Verify && Offers(s, w) ==> Completes(Prefix(s.texts.retyped, s.cursor), w)
  {
    RunsStaySound(lib, START(physical), events);
    hide Slots, Words, Run, Prefix, IsCell;
    var s := Run(lib, START(physical), events);
    if s.shown && s.page == Verify {
      assert s.offered in {s.offered, s.row} && s.row in {s.offered, s.row};
    }
  }

  lemma SuggestionFills(s: State, w: string)
    requires s.texts == WIPED && s.cursor == 0 && IsCell(w) && w != ""
    ensures SuggestionApplied(s, w).texts == WIPED.(retyped := w)
  {
    SlotsOfEmpty();
    WordsOfEmpty();
    assert SlotCleared("", 0) == "" by {
      SlotsInjective(SlotCleared("", 0), "");
    }
    assert SetFits("", 0, w);
    SlotsOfSlot(w);
    assert WithSlot("", 0, w) == w by {
      SlotsInjective(WithSlot("", 0, w), w);
    }
    hide Slots, Words, WithSlot, Complete;
  }

  /** "Discard" is final, with a word then chosen, exactly when the floating keyboard is
      not up with that word on it. */
  lemma DiscardIsFinal(lib: Library, physical: bool, events: seq<Event>, w: string)
    ensures var s := Run(lib, START(physical), events);
            s.shown && s.page == Seed ==>
              var t := Step(lib, Step(lib, s, Discard), Suggestion(w));
              && (t.texts == WIPED <==> !(s.keys && Completes(s.offered, w)))
              && (s.keys && Completes(s.offered, w) ==> t.texts == WIPED.(retyped := w) && t.page == Intro)
  {
    hide Run;
    var s := Run(lib, START(physical), events);
    if s.shown && s.page == Seed {
      Discarded(lib, s);
      ChosenAfterDiscard(lib, Step(lib, s, Discard), w);
      hide Step, Completes;
    }
  }

  lemma Discarded(lib: Library, s: State)
    requires s.shown && s.page == Seed
    ensures var t := Step(lib, s, Discard);
            && t.shown && t.page == Intro && t.texts == WIPED && t.cursor == 0
            && t.keys == s.keys && t.offered == s.offered
  {
  }

  lemma ChosenAfterDiscard(lib: Library, t: State, w: string)
    requires t.shown && t.texts == WIPED && t.cursor == 0 && t.page == Intro
    ensures var u := Step(lib, t, Suggestion(w));
            u.page == Intro && u.texts == if t.keys && Completes(t.offered, w) then WIPED.(retyped := w) else WIPED
    ensures Completes(t.offered, w) ==> w != ""
  {
    if Completes(t.offered, w) {
      SuggestionFills(t, w);
      SuggestionStays(t, w);
    }
    SuggestionIsStep(lib, t, w);
    hide SuggestionApplied, IsCell, Step;
  }

  lemma SuggestionIsStep(lib: Library, s: State, w: string)
    ensures s.shown ==> Step(lib, s, Suggestion(w)) == if Offers(s, w) then SuggestionApplied(s, w) else s
  {
    hide SuggestionApplied, OnPage, Completes;
  }

  /** Words are up on the floating keyboard away from the page they are for. */
  predicate Lingering(s: State) {
    s.keys && s.offered != "" && (s.page != Verify || !s.shown)
  }

  /** The verification page is left while the floating keyboard shows words. */
  predicate Leaves(s: State, e: Event) {
    s.shown && s.page == Verify && s.keys && s.offered != "" && (e.ShowWords? || e.Leave?)
  }

  /** They go when the keyboard does, when one of them is chosen, or when the
      verification page comes up again. */
  predicate Withdraws(s: State, e: Event) {
    s.shown && (e.HideKeys? || (e.WordsWritten? && s.page == Seed) || (e.Suggestion? && Offers(s, e.word)))
  }

  lemma SuggestionWithdraws(s: State, w: string)
    requires s.page != Verify && w != ""
    ensures var t := SuggestionApplied(s, w); t.offered == "" && t.page == s.page
  {
    hide Words, Prefix, Complete, SlotSet;
  }

  lemma EditsStay(s: State, e: Event)
    requires s.page == Verify && !e.ShowWords? && !e.VerifyEnter? && !e.VerifyContinue?
    ensures OnVerify(s, e).page == Verify
  {
    hide Words, Prefix, Complete, SlotCountSet, SlotAppended, SlotBackspaced, SlotCleared, AppendFits, SlotLen;
  }

  /** The pages before the verification leave the floating keyboard as it is. */
  lemma EarlyPages(lib: Library, s: State, e: Event)
    requires s.page in {Intro, Entropy, Seed} && !(s.page == Seed && e.WordsWritten?)
    ensures var t := OnPage(lib, s, e);
            t.keys == s.keys && t.offered == s.offered && t.page in {Intro, Entropy, Seed}
  {
    hide IsPhrase, Sentence, Words, SlotCountSet, Refreshed;
  }

  lemma ToVerifyPage(lib: Library, s: State)
    requires s.shown && s.page == Seed
    ensures var t := OnPage(lib, s, WordsWritten); t.page == Verify && t.shown
  {
    hide Words, SlotCountSet, Complete, Prefix;
  }

  /** The pages behind it show no words. */
  lemma LatePages(lib: Library, s: State, e: Event)
    requires s.page in {Confirm, Name, Result} && s.offered == ""
    ensures OnPage(lib, s, e).offered == ""
  {
    hide ExportFrom;
  }

  lemma PageIs(lib: Library, s: State, e: Event)
    requires s.shown && !e.Leave? && !e.Suggestion? && !e.HideKeys? && !e.ToggleKeys? && !e.Enter? && !e.Elsewhere?
    ensures Step(lib, s, e) == OnPage(lib, s, e)
  {
    hide OnPage;
  }

  lemma FrameEvents(lib: Library, s: State, e: Event)
    ensures !s.shown ==> (Lingering(Step(lib, s, e)) <==> Lingering(s))
    ensures s.shown && e.Leave? ==> Step(lib, s, e) == Wiped(s).(shown := false)
    ensures s.shown && e.HideKeys? ==> Step(lib, s, e) == s.(keys := false)
    ensures s.shown && e.ToggleKeys? ==>
              Step(lib, s, e) == if s.page in {Verify, Passphrase, Name} then s.(keys := !s.keys) else s
    ensures s.shown && (e.Enter? || e.Elsewhere?) ==> Step(lib, s, e) == s
  {
    hide OnPage, SuggestionApplied, Completes;
  }

  lemma SuggestionLingers(lib: Library, s: State, w: string)
    requires s.shown
    ensures Lingering(Step(lib, s, Suggestion(w))) <==> Lingering(s) && !Offers(s, w)
  {
    SuggestionIsStep(lib, s, w);
    SuggestionStays(s, w);
    if Offers(s, w) && s.page != Verify {
      SuggestionWithdraws(s, w);
    }
    hide Step, SuggestionApplied, IsCell;
  }

  lemma SilentPages(lib: Library, s: State)
    requires Good(lib, s)
    ensures s.page in {Passphrase, Confirm, Name, Result} ==> s.offered == ""
  {
    hide GridsAgree;
  }

  lemma FrameLingers(lib: Library, s: State, e: Event)
    requires !s.shown || e.Leave? || e.HideKeys? || e.ToggleKeys? || e.Enter? || e.Elsewhere?
    requires s.shown && s.page in {Passphrase, Confirm, Name, Result} ==> s.offered == ""
    ensures Lingering(Step(lib, s, e)) <==> Leaves(s, e) || (Lingering(s) && !Withdraws(s, e))
  {
    FrameEvents(lib, s, e);
    hide Step;
  }

  lemma StepLingers(lib: Library, s: State, e: Event)
    requires Sound(lib, s)
    ensures Lingering(Step(lib, s, e)) <==> Leaves(s, e) || (Lingering(s) && !Withdraws(s, e))
  {
    if s.shown {
      SilentPages(lib, s);
    }
    hide Step, Sound, Good, Offers, OnPage;
    if !s.shown || e.Leave? || e.HideKeys? || e.ToggleKeys? || e.Enter? || e.Elsewhere? {
      FrameLingers(lib, s, e);
    } else if e.Suggestion? {
      SuggestionLingers(lib, s, e.word);
    } else if s.page == Verify {
      VerifyLingers(lib, s, e);
    } else {
      PageIs(lib, s, e);
      if s.page == Passphrase {
        PassphraseLingers(lib, s, e);
      } else if s.page in {Confirm, Name, Result} {
        LatePages(lib, s, e);
      } else if s.page == Seed && e.WordsWritten? {
        ToVerifyPage(lib, s);
      } else {
        EarlyPages(lib, s, e);
      }
    }
  }

  lemma SuggestionStays(s: State, w: string)
    ensures SuggestionApplied(s, w).page == s.page && SuggestionApplied(s, w).shown == s.shown
  {
    hide Words, Prefix, Complete, SlotSet;
  }

  lemma VerifyLingers(lib: Library, s: State, e: Event)
    requires s.shown && s.page == Verify && !e.Suggestion?
    ensures Lingering(Step(lib, s, e)) <==> Leaves(s, e)
  {
    if e.ShowWords? {
    } else if e.VerifyEnter? || e.VerifyContinue? {
      ContinueLingers(s, e);
    } else {
      EditsStay(s, e);
      EditsShown(s, e);
    }
    hide OnVerify, Words, Prefix, Complete, Slots;
    VerifyIs(lib, s, e);
  }

  lemma VerifyIs(lib: Library, s: State, e: Event)
    requires s.shown && s.page == Verify && !e.Suggestion?
    ensures !e.Leave? && !e.HideKeys? && !e.ToggleKeys? && !e.Enter? && !e.Elsewhere? ==>
              Step(lib, s, e) == OnVerify(s, e)
    ensures e.ShowWords? ==> OnVerify(s, e) == s.(page := Seed)
  {
    hide CursorSet, VerifyTyped, VerifyBackspaced, VerifyCleared, Retyped, Completes, SlotCleared;
  }

  lemma ContinueLingers(s: State, e: Event)
    requires s.shown && s.page == Verify && (e.VerifyEnter? || e.VerifyContinue?)
    ensures !Lingering(OnVerify(s, e))
  {
    CursorStays(s, s.cursor + 1);
    hide CursorSet;
  }

  lemma CursorStays(s: State, index: int)
    ensures CursorSet(s, index).page == s.page && CursorSet(s, index).shown == s.shown
  {
    hide Words, Prefix, Complete;
  }

  lemma EditsShown(s: State, e: Event)
    ensures OnVerify(s, e).shown == s.shown
  {
    hide Words, Prefix, Complete, SlotCountSet, SlotAppended, SlotBackspaced, SlotCleared, AppendFits, SlotLen;
  }

  lemma PassphraseLingers(lib: Library, s: State, e: Event)
    requires s.shown && s.page == Passphrase && s.offered == ""
    ensures !Lingering(OnPage(lib, s, e))
  {
    PassphraseIs(s, e);
    assert OnPage(lib, s, e) == OnPassphrase(s, e);
    hide OnPassphrase, OnPage;
    ToVerifyShown(s);
    hide GoneTo, Refreshed;
    ToConfirmSilent(s);
  }

  lemma ToVerifyShown(s: State)
    ensures GoneTo(s, Verify).page == Verify && GoneTo(s, Verify).shown == s.shown
  {
    hide Words, SlotCountSet, Complete, Prefix;
  }

  lemma ToConfirmSilent(s: State)
    ensures GoneTo(s, Confirm).offered == s.offered
  {
  }

  /** The i-th event left the verification page with words up, and nothing since has
      taken them away. */
  predicate LeftWordsUp(lib: Library, physical: bool, events: seq<Event>, i: nat)
    requires i < |events|
  {
    && Leaves(Run(lib, START(physical), events[..i]), events[i])
    && forall j | i < j < |events| :: !Withdraws(Run(lib, START(physical), events[..j]), events[j])
  }

  lemma {:induction false} RunSnoc(lib: Library, s: State, events: seq<Event>, e: Event)
    ensures Run(lib, s, events + [e]) == Step(lib, Run(lib, s, events), e)
    decreases |events|
  {
    hide Step;
    if events == [] {
      assert [] + [e] == [e] && [e][1..] == [];
    } else {
      assert (events + [e])[0] == events[0] && (events + [e])[1..] == events[1..] + [e];
      RunSnoc(lib, Step(lib, s, events[0]), events[1..], e);
    }
  }

  /** Over all runs: words linger on the floating keyboard exactly when the verification
      page was left with a half-typed cell and the keyboard up, and since then the
      keyboard was not put away, no word chosen and the page not come back to. */
  lemma {:induction false} LingersExactly(lib: Library, physical: bool, events: seq<Event>)
    ensures Lingering(Run(lib, START(physical), events)) <==>
              exists i :: 0 <= i < |events| && LeftWordsUp(lib, physical, events, i)
    decreases |events|
  {
    hide Run, Step, Sound, Lingering, Leaves, Withdraws;
    if events == [] {
      NothingLingers(lib, physical);
    } else {
      var init, e := SplitLast(events);
      var s := Run(lib, START(physical), init);
      LingersExactly(lib, physical, init);
      StartSound(lib, physical);
      RunsStaySound(lib, START(physical), init);
      StepLingers(lib, s, e);
      RunSnoc(lib, START(physical), init, e);
      assert events[..|init|] == init;
      assert forall i | 0 <= i < |init| :: events[..i] == init[..i] && events[i] == init[i];
      if i :| 0 <= i < |init| && LeftWordsUp(lib, physical, init, i) && !Withdraws(s, e) {
        assert LeftWordsUp(lib, physical, events, i);
      }
      if i :| 0 <= i < |events| && LeftWordsUp(lib, physical, events, i) {
        if i < |init| {
          assert !Withdraws(Run(lib, START(physical), events[..|init|]), events[|init|]);
          assert LeftWordsUp(lib, physical, init, i);
        }
      }
      if Leaves(s, e) {
        assert LeftWordsUp(lib, physical, events, |init|);
      }
    }
  }

  lemma StartSound(lib: Library, physical: bool)
    ensures Sound(lib, START(physical))
  {
  }

  lemma NothingLingers(lib: Library, physical: bool)
    ensures !Lingering(Run(lib, START(physical), []))
  {
  }

  lemma LaidOut(n: nat)
    requires IsWordCount(n)
    ensures |Slots(SlotCountSet("", n))| == n && Slots(SlotCountSet("", n))[0] == ""
    ensures |SlotCountSet("", n)| < CAPACITY - 1
  {
    SlotsOfEmpty();
    assert CountFits("", n);
    SlotCountSetSlots("", n);
    CountSetCases("", n);
  }

  /** The verification page as it first comes up on a machine without keys. */
  lemma FirstLetter(s: State, c: char, n: nat)
    requires s.page == Verify && s.cursor == 0 && s.keys && IsWordCount(n) && Cells(s) == n
    requires s.texts.retyped == SlotCountSet("", n) && IsLetter(c)
    ensures var t := VerifyTyped(s, c);
            t == s.(texts := t.texts, verified := t.verified, offered := [c], row := "")
  {
    LaidOut(n);
    hide Slots, SlotCountSet, Complete, Words, SlotStart;
    var t := s.texts.retyped;
    assert AppendFits(t, 0, c);
    AppendIsLocal(t, 0, c);
    EditsKeepCount(t, 0, c, "");
    assert Slots(SlotAppended(t, 0, c))[0] == [c];
    assert Prefix(SlotAppended(t, 0, c), 0) == [c];
    hide SlotAppended, AppendFits, Prefix;
  }

  lemma ToFirstCell(lib: Library, w: seq<string>)
    requires IsPhrase(w)
    ensures var s := Run(lib, START(false), [Enter, Continue, Generate(Phrase(w)), WordsWritten]);
            && s.shown && s.page == Verify && s.cursor == 0 && s.keys
            && Cells(s) == |w| && s.texts.retyped == SlotCountSet("", |w|)
  {
    var a := Step(lib, Step(lib, START(false), Enter), Continue);
    assert a.shown && a.page == Entropy && a.cursor == 0 && !a.physical;
    hide *;
    PhraseReady(lib, a, w);
    GridReady(lib, Step(lib, a, Generate(Phrase(w))), w);
    RunOfFour(lib, START(false), Enter, Continue, Generate(Phrase(w)), WordsWritten);
  }

  lemma PhraseReady(lib: Library, a: State, w: seq<string>)
    requires IsPhrase(w) && a.shown && a.page == Entropy && a.cursor == 0 && !a.physical
    ensures var b := Step(lib, a, Generate(Phrase(w)));
            && b.shown && b.page == Seed && !b.physical && b.cursor == 0
            && b.texts.mnemonic == Sentence(w) && b.texts.retyped == ""
  {
    GeneratedIs(a, w);
    hide Generated, IsPhrase, Sentence;
  }

  lemma GridReady(lib: Library, b: State, w: seq<string>)
    requires IsPhrase(w) && b.shown && b.page == Seed && !b.physical && b.cursor == 0
    requires b.texts.mnemonic == Sentence(w) && b.texts.retyped == ""
    ensures var s := Step(lib, b, WordsWritten);
            && s.shown && s.page == Verify && s.cursor == 0 && s.keys
            && Cells(s) == |w| && s.texts.retyped == SlotCountSet("", |w|)
  {
    PhraseShape(w);
    ToVerifyIs(b);
    assert Step(lib, b, WordsWritten) == GoneTo(b, Verify);
    hide GoneTo, Step, Words, Slots, Sentence, IsPhrase, SlotCountSet, Complete, Prefix;
  }

  lemma RunOfFour(lib: Library, s: State, a: Event, b: Event, c: Event, d: Event)
    ensures Run(lib, s, [a, b, c, d]) == Step(lib, Step(lib, Step(lib, Step(lib, s, a), b), c), d)
  {
    hide *;
    RunNothing(lib, s);
    RunSnoc(lib, s, [], a);
    RunSnoc(lib, s, [a], b);
    RunSnoc(lib, s, [a, b], c);
    RunSnoc(lib, s, [a, b, c], d);
    assert [] + [a] == [a] && [a] + [b] == [a, b] && [a, b] + [c] == [a, b, c] && [a, b, c] + [d] == [a, b, c, d];
  }

  lemma RunNothing(lib: Library, s: State)
    ensures Run(lib, s, []) == s
  {
  }

  lemma {:induction false} RunConcatenation(lib: Library, s: State, a: seq<Event>, b: seq<Event>)
    ensures Run(lib, s, a + b) == Run(lib, Run(lib, s, a), b)
    decreases |a|
  {
    hide Step;
    if a == [] {
      assert a + b == b;
    } else {
      assert (a + b)[0] == a[0] && (a + b)[1..] == a[1..] + b;
      RunConcatenation(lib, Step(lib, s, a[0]), a[1..], b);
    }
  }

  /** A word that outlived "Discard" on the floating keyboard puts itself into the
      buffers that were just wiped: on a machine without keys eight events lead there,
      whatever words were generated. */
  lemma SuggestionOutlivesDiscard(lib: Library, w: seq<string>, c: char, word: string)
    requires IsPhrase(w) && IsLetter(c) && Completes([c], word)
    ensures var s := Run(lib, START(false), [Enter, Continue, Generate(Phrase(w)), WordsWritten]
                                            + [VerifyChar(c), ShowWords, Discard, Suggestion(word)]);
            s.texts == WIPED.(retyped := word) && s.page == Intro
  {
    var first := [Enter, Continue, Generate(Phrase(w)), WordsWritten];
    RunConcatenation(lib, START(false), first, [VerifyChar(c), ShowWords, Discard, Suggestion(word)]);
    var s := Run(lib, START(false), first);
    ToFirstCell(lib, w);
    FirstLetter(s, c, |w|);
    TypedThenDiscarded(lib, s, c);
    hide *;
    RunOfFour(lib, s, VerifyChar(c), ShowWords, Discard, Suggestion(word));
    ChosenAfterDiscard(lib, Step(lib, Step(lib, Step(lib, s, VerifyChar(c)), ShowWords), Discard), word);
  }

  lemma TypedThenDiscarded(lib: Library, s: State, c: char)
    requires s.shown && s.page == Verify && s.keys
    requires var t := VerifyTyped(s, c); t == s.(texts := t.texts, verified := t.verified, offered := [c], row := "")
    ensures var t := Step(lib, Step(lib, Step(lib, s, VerifyChar(c)), ShowWords), Discard);
            t.shown && t.keys && t.offered == [c] && t.texts == WIPED && t.cursor == 0 && t.page == Intro
  {
    hide VerifyTyped;
  }
}
