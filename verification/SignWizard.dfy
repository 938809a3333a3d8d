// The signing screen, without its widgets: what the keyboard, the buttons and the
// engine do to the buffers, the key slot and the flag that allows signing.
module SignWizard {
  import opened Wrappers
  import opened SlotText
  import opened SecureText
  import opened SecretBuffers
  import opened Mnemonics
  import E = Engine

  datatype Page = Entry | Confirm | Name | Result
  datatype Field = Key | Passphrase | Again
  datatype Source = Words | Xprv

  /** One signature made: with which key, typed how, for which file and what fee shown. */
  datatype Signing = Signing(network: E.Network, source: Source, texts: Texts, key: E.Key, psbt: E.Psbt, fee: nat)

  datatype State = State(shown: bool, page: Page, field: Field, source: Source, texts: Texts,
                         keyChecked: bool, engine: E.State, signings: seq<Signing>)

  datatype Event =
    | Enter
    | Leave
    | Elsewhere(texts: Texts, e: E.Event)     // another screen uses the buffers and the engine
    | Char(c: char)
    | Backspace
    | DeleteWord
    | ClearAll
    | Suggestion(word: string)
    | PickSource(source: Source)
    | PickField(field: Field)
    | NextField
    | CheckKey
    | Review
    | ConfirmBack
    | SignNow
    | Write(written: bool)

  const START := (network: E.Network) => State(false, Entry, Key, Words, WIPED, false, E.START(network), [])

  // --- the handlers ---------------------------------------------------------------

  predicate IsBase58(c: char) {
    c !in "0OIl" && ('0' <= c <= '9' || 'A' <= c <= 'Z' || 'a' <= c <= 'z')
  }

  predicate IsAllowed(s: State, c: char) {
    if s.field != Key then IsPrintable(c)
    else if s.source == Words then IsLetter(c) || c == ' '
    else IsBase58(c)
  }

  function Active(s: State): string {
    match s.field
    case Key => s.texts.mnemonic
    case Passphrase => s.texts.passphrase
    case Again => s.texts.again
  }

  function WithActive(s: State, t: string): State {
    match s.field
    case Key => s.(texts := s.texts.(mnemonic := t))
    case Passphrase => s.(texts := s.texts.(passphrase := t))
    case Again => s.(texts := s.texts.(again := t))
  }

  /** refreshDisplays(): a repeat of no passphrase is dropped. */
  function Displayed(s: State): State {
    if s.source == Words && s.texts.passphrase != "" then s
    else s.(texts := s.texts.(again := ""), field := if s.field == Again then Passphrase else s.field)
  }

  function FieldSet(s: State, f: Field): State {
    var f1 := if f == Again && (s.source != Words || s.texts.passphrase == "") then Passphrase else f;
    var f2 := if f1 == Passphrase && s.source != Words then Key else f1;
    Displayed(s.(field := f2))
  }

  function SourceSet(s: State, x: Source): State {
    var t := if s.source != x then s.(texts := s.texts.(mnemonic := ""), keyChecked := false) else s;
    var u := t.(source := x);
    if x == Xprv && u.field == Passphrase then FieldSet(u, Key) else FieldSet(u, u.field)
  }

  function FieldAfter(s: State): Field {
    match s.field
    case Key => Passphrase
    case Passphrase => if s.texts.passphrase == "" then Key else Again
    case Again => Key
  }

  /** A character undoes the check before it is stored, if it is. */
  function Typed(s: State, c: char): State {
    if s.page == Name || !IsAllowed(s, c) then s
    else
      var t := if s.keyChecked then s.(keyChecked := false, engine := E.Cleared(s.engine)) else s;
      if !Fits(Active(t), 1) then t else Displayed(WithActive(t, Appended(Active(t), [c])))
  }

  function Edited(s: State, t: string): State {
    if s.page == Name then s else Displayed(WithActive(s, t).(keyChecked := false))
  }

  function SuggestionApplied(s: State, w: string): State {
    if w == "" then s
    else
      var t := Appended(Appended(WordBackspaced(s.texts.mnemonic), w), " ");
      Displayed(s.(texts := s.texts.(mnemonic := t), keyChecked := false))
  }

  predicate PassphraseReady(source: Source, t: Texts) {
    source != Words || t.passphrase == "" || t.passphrase == t.again
  }

  /** The key that the buffers stand for. */
  function KeyOf(c: E.Crypto, engine: E.State, source: Source, t: Texts): Option<E.Key> {
    match source
    case Words => E.MnemonicKey(c, engine, t.mnemonic, t.passphrase)
    case Xprv => E.XprvKey(c, t.mnemonic)
  }

  ghost function Checked(c: E.Crypto, s: State): State {
    var t := s.(keyChecked := false);
    if t.texts.mnemonic == "" then t
    else if !PassphraseReady(t.source, t.texts) then FieldSet(t, Again)
    else Derived(c, t.(texts := t.texts.(mnemonic := Normalised(t.texts.mnemonic))))
  }

  ghost function Derived(c: E.Crypto, s: State): State {
    var key := KeyOf(c, s.engine, s.source, s.texts);
    var engine := E.WithKey(c, s.engine, key);
    s.(engine := engine, keyChecked := key.Some? && engine.summary.signableInputs > 0)
  }

  function Wiped(s: State): State {
    s.(texts := WIPED, engine := E.Cleared(s.engine), keyChecked := false)
  }

  function SigningOf(s: State): Signing
    requires s.engine.key.Some? && s.engine.psbt.Some?
  {
    Signing(s.engine.network, s.source, s.texts, s.engine.key.value, s.engine.psbt.value, s.engine.summary.fee)
  }

  ghost function SignedNow(c: E.Crypto, s: State): State {
    if !s.keyChecked then s
    else
      var t := s.(engine := E.AfterSign(c, s.engine));
      if E.SignaturesAdded(c, s.engine) == None then t
      else
        Displayed(Wiped(t.(signings := s.signings + [SigningOf(s)])).(page := Name))
  }

  ghost function Step(c: E.Crypto, s: State, e: Event): State {
    match e
    case Enter =>
      if s.shown then s
      else Displayed(SourceSet(FieldSet(s.(shown := true, page := Entry, keyChecked := false), Key), Words))
    case Elsewhere(t, f) => if s.shown then s else s.(texts := t, engine := E.Step(c, s.engine, f))
    case _ => if s.shown then Handled(c, s, e) else s
  }

  ghost function Handled(c: E.Crypto, s: State, e: Event): State {
    match e
    case Leave => Wiped(s).(shown := false)
    case Char(ch) => Typed(s, ch)
    case Backspace => Edited(s, Backspaced(Active(s)))
    case DeleteWord => Edited(s, WordBackspaced(Active(s)))
    case ClearAll => Edited(s, "")
    case Suggestion(w) => SuggestionApplied(s, w)
    case SignNow => if s.page == Confirm then SignedNow(c, s) else s
    case ConfirmBack => if s.page == Confirm then s.(page := Entry) else s
    case Write(written) => if s.page == Name && written then s.(page := Result) else s
    case _ => if s.page == Entry then OnEntry(c, s, e) else s
  }

  ghost function OnEntry(c: E.Crypto, s: State, e: Event): State {
    match e
    case PickSource(x) => SourceSet(s, x)
    case PickField(f) => FieldSet(s, f)
    case NextField => if s.source == Words then FieldSet(s, FieldAfter(s)) else s
    case CheckKey => Checked(c, s)
    case Review => if s.keyChecked then s.(page := Confirm) else s
    case _ => s
  }

  ghost function Run(c: E.Crypto, s: State, events: seq<Event>): State
    decreases |events|
  {
    if events == [] then s else Run(c, Step(c, s, events[0]), events[1..])
  }

  // --- the invariant of every run ---------------------------------------------------

  /** The slot holds the key of what is in the buffers now, it can sign something,
      and a passphrase was confirmed. */
  ghost predicate CheckStands(c: E.Crypto, s: State) {
    && s.shown
    && s.engine.key.Some? && s.engine.key == KeyOf(c, s.engine, s.source, s.texts)
    && s.engine.psbt.Some? && s.engine.summary.signableInputs > 0
    && PassphraseReady(s.source, s.texts)
  }

  /** A signature was made with the key of the text then in the buffers, for a file
      that was safe for it and at a fee that was true unless the totals wrapped. */
  ghost predicate Proper(c: E.Crypto, g: Signing) {
    && (g.source == Words ==> c.validMnemonic(g.texts.mnemonic))
    && (g.source == Words ==>
          c.masterFromMnemonic(g.texts.mnemonic, g.texts.passphrase, g.network == E.Mainnet) == Some(g.key))
    && (g.source == Xprv ==> c.keyFromXprv(g.texts.mnemonic) == Some(g.key) && g.key.isPrivate)
    && PassphraseReady(g.source, g.texts)
    && E.SafeFor(c, g.psbt, g.key) && E.TotalsAsShown(g.psbt, g.fee)
  }

  ghost predicate Sound(c: E.Crypto, s: State) {
    && E.UpToDate(c, s.engine)
    && (s.keyChecked ==> CheckStands(c, s))
    && forall i | 0 <= i < |s.signings| :: Proper(c, s.signings[i])
  }

  /** The text and the key of `t` are those of `s`, or its check is off. */
  lemma KeepsCheck(c: E.Crypto, s: State, t: State)
    requires Sound(c, s)
    requires t.engine == s.engine || t.engine == E.Cleared(s.engine)
    requires t.signings == s.signings
    requires t.keyChecked ==>
               s.keyChecked && t.shown == s.shown && t.source == s.source && t.engine == s.engine
               && t.texts.mnemonic == s.texts.mnemonic && t.texts.passphrase == s.texts.passphrase
               && (t.texts.again == s.texts.again || t.source == Xprv || t.texts.passphrase == "")
    ensures Sound(c, t)
  {
    E.ClearedUpToDate(c, s.engine);
    hide E.UpToDate, E.Cleared, Proper, E.MnemonicKey, E.XprvKey;
  }

  lemma FieldSetKeeps(c: E.Crypto, s: State, f: Field)
    requires Sound(c, s)
    ensures Sound(c, FieldSet(s, f))
  {
    hide Sound;
    KeepsCheck(c, s, FieldSet(s, f));
  }

  lemma SourceSetKeeps(c: E.Crypto, s: State, x: Source)
    requires Sound(c, s)
    ensures Sound(c, SourceSet(s, x))
  {
    hide Sound;
    KeepsCheck(c, s, SourceSet(s, x));
  }

  lemma TypedKeeps(c: E.Crypto, s: State, ch: char)
    requires Sound(c, s)
    ensures Sound(c, Typed(s, ch))
  {
    hide Sound, Appended, Fits, IsAllowed, E.Cleared;
    KeepsCheck(c, s, Typed(s, ch));
  }

  lemma EditedKeeps(c: E.Crypto, s: State, t: string)
    requires Sound(c, s)
    ensures Sound(c, Edited(s, t))
  {
    hide Sound;
    KeepsCheck(c, s, Edited(s, t));
  }

  lemma SuggestionKeeps(c: E.Crypto, s: State, w: string)
    requires Sound(c, s)
    ensures Sound(c, SuggestionApplied(s, w))
  {
    hide Sound, Appended, WordBackspaced;
    KeepsCheck(c, s, SuggestionApplied(s, w));
  }

  /** A key with something to sign needs a file. */
  lemma SignableNeedsFile(c: E.Crypto, s: E.State, key: Option<E.Key>)
    ensures var t := E.WithKey(c, s, key);
            key.Some? ==> t.key == key && t.network == s.network && (t.summary.signableInputs > 0 ==> t.psbt.Some?)
  {
    hide E.Fresh;
  }

  lemma DerivedSound(c: E.Crypto, s: State)
    requires Sound(c, s) && s.shown && PassphraseReady(s.source, s.texts)
    ensures Sound(c, Derived(c, s))
  {
    var key := KeyOf(c, s.engine, s.source, s.texts);
    E.WithKeyUpToDate(c, s.engine, key);
    SignableNeedsFile(c, s.engine, key);
    hide E.UpToDate, E.WithKey, Proper;
  }

  lemma CheckedSound(c: E.Crypto, s: State)
    requires Sound(c, s) && s.shown
    ensures Sound(c, Checked(c, s))
  {
    hide Sound, Derived, FieldSet, Normalised;
    var t := s.(keyChecked := false);
    KeepsCheck(c, s, t);
    FieldSetKeeps(c, t, Again);
    var u := t.(texts := t.texts.(mnemonic := Normalised(t.texts.mnemonic)));
    KeepsCheck(c, s, u);
    if PassphraseReady(s.source, s.texts) {
      DerivedSound(c, u);
    }
  }

  /** A signing call that adds nothing leaves everything as it was. */
  lemma NothingSigned(c: E.Crypto, s: State)
    requires s.keyChecked && E.SignaturesAdded(c, s.engine) == None
    ensures SignedNow(c, s) == s
  {
    E.SilentSigning(c, s.engine);
    hide E.AfterSign, E.SignaturesAdded;
  }

  lemma SomethingSigned(c: E.Crypto, s: State)
    requires Sound(c, s) && s.keyChecked && E.SignaturesAdded(c, s.engine).Some?
    ensures Sound(c, SignedNow(c, s))
  {
    E.SignUpToDate(c, s.engine);
    E.ClearedUpToDate(c, E.AfterSign(c, s.engine));
    SigningProper(c, s);
    hide E.UpToDate, E.AfterSign, E.Cleared, E.SignaturesAdded, Proper, CheckStands;
  }

  lemma SignedSound(c: E.Crypto, s: State)
    requires Sound(c, s)
    ensures Sound(c, SignedNow(c, s))
  {
    if s.keyChecked {
      if E.SignaturesAdded(c, s.engine) == None {
        NothingSigned(c, s);
      } else {
        SomethingSigned(c, s);
      }
    }
    hide Sound, E.AfterSign, E.Cleared, E.SignaturesAdded;
  }

  lemma SigningProper(c: E.Crypto, s: State)
    requires Sound(c, s) && s.keyChecked && E.SignaturesAdded(c, s.engine).Some?
    ensures Proper(c, SigningOf(s))
  {
    E.MaySignIsSafe(c, s.engine);
    hide E.Fresh, E.SafeFor, E.TotalsAsShown, E.SameFacts;
  }

  lemma OnEntrySound(c: E.Crypto, s: State, e: Event)
    requires Sound(c, s) && s.shown
    ensures Sound(c, OnEntry(c, s, e))
  {
    hide Sound, SourceSet, FieldSet, Checked;
    match e
    case PickSource(x) => SourceSetKeeps(c, s, x);
    case PickField(f) => FieldSetKeeps(c, s, f);
    case NextField => FieldSetKeeps(c, s, FieldAfter(s));
    case CheckKey => CheckedSound(c, s);
    case Review => KeepsCheck(c, s, s.(page := Confirm));
    case _ =>
  }

  lemma HandledSound(c: E.Crypto, s: State, e: Event)
    requires Sound(c, s) && s.shown
    ensures Sound(c, Handled(c, s, e))
  {
    hide Sound, Typed, Edited, SuggestionApplied, SignedNow, OnEntry, Backspaced, WordBackspaced, E.Cleared;
    match e
    case Leave => KeepsCheck(c, s, Wiped(s).(shown := false));
    case Char(ch) => TypedKeeps(c, s, ch);
    case Backspace => EditedKeeps(c, s, Backspaced(Active(s)));
    case DeleteWord => EditedKeeps(c, s, WordBackspaced(Active(s)));
    case ClearAll => EditedKeeps(c, s, "");
    case Suggestion(w) => SuggestionKeeps(c, s, w);
    case SignNow => SignedSound(c, s);
    case ConfirmBack => KeepsCheck(c, s, s.(page := Entry));
    case Write(_) => KeepsCheck(c, s, s.(page := Result));
    case _ => OnEntrySound(c, s, e);
  }

  lemma EnterSound(c: E.Crypto, s: State)
    requires Sound(c, s)
    ensures Sound(c, Displayed(SourceSet(FieldSet(s.(shown := true, page := Entry, keyChecked := false), Key), Words)))
  {
    hide Sound;
    KeepsCheck(c, s, Displayed(SourceSet(FieldSet(s.(shown := true, page := Entry, keyChecked := false), Key), Words)));
  }

  lemma ElsewhereSound(c: E.Crypto, s: State, t: Texts, e: E.Event)
    requires Sound(c, s) && !s.shown
    ensures Sound(c, s.(texts := t, engine := E.Step(c, s.engine, e)))
  {
    E.StepKeepsUpToDate(c, s.engine, e);
    hide E.UpToDate, E.Step, Proper;
  }

  lemma StepKeepsSound(c: E.Crypto, s: State, e: Event)
    requires Sound(c, s)
    ensures Sound(c, Step(c, s, e))
  {
    hide Sound, Handled, Displayed, SourceSet, FieldSet, E.Step;
    if s.shown {
      if !e.Enter? && !e.Elsewhere? {
        HandledSound(c, s, e);
      }
    } else if e.Enter? {
      EnterSound(c, s);
    } else if e.Elsewhere? {
      ElsewhereSound(c, s, e.texts, e.e);
    }
  }

  lemma {:induction false} RunsStaySound(c: E.Crypto, s: State, events: seq<Event>)
    requires Sound(c, s)
    ensures Sound(c, Run(c, s, events))
    decreases |events|
  {
    if events != [] {
      hide Sound, Step;
      StepKeepsSound(c, s, events[0]);
      RunsStaySound(c, Step(c, s, events[0]), events[1..]);
    }
  }

  /** Whatever keys are pressed on whatever page: while a key counts as checked, it
      is the key of the text now in the buffers. */
  lemma CheckedMeansDerived(c: E.Crypto, network: E.Network, events: seq<Event>)
    ensures var s := Run(c, START(network), events); s.keyChecked ==> CheckStands(c, s)
  {
    RunsStaySound(c, START(network), events);
  }

  /** Every signature of a run was made with the key just checked, for a file that was
      safe for it; while its totals fit 64 bits, the outputs did not exceed the inputs
      and the operator saw the true fee. */
  lemma EverySignatureProper(c: E.Crypto, network: E.Network, events: seq<Event>)
    ensures forall g | g in Run(c, START(network), events).signings ::
              && Proper(c, g)
              && (E.TotalPaid(g.psbt) < E.UINT64 && E.TotalSpent(g.psbt) < E.UINT64 ==>
                    E.TotalPaid(g.psbt) <= E.TotalSpent(g.psbt) && g.fee == E.TotalSpent(g.psbt) - E.TotalPaid(g.psbt))
  {
    RunsStaySound(c, START(network), events);
    forall g | g in Run(c, START(network), events).signings
      ensures Proper(c, g)
      ensures E.TotalPaid(g.psbt) < E.UINT64 && E.TotalSpent(g.psbt) < E.UINT64 ==>
                E.TotalPaid(g.psbt) <= E.TotalSpent(g.psbt) && g.fee == E.TotalSpent(g.psbt) - E.TotalPaid(g.psbt)
    {
      if E.TotalPaid(g.psbt) < E.UINT64 && E.TotalSpent(g.psbt) < E.UINT64 {
        E.SmallTotals(g.psbt, g.fee);
      }
    }
    hide Run, E.TotalPaid, E.TotalSpent, E.TotalsAsShown, E.UpToDate, CheckStands;
  }

  /** After a signature no secret and no key is left. */
  lemma SigningWipes(c: E.Crypto, s: State)
    requires s.shown && s.page == Confirm && s.keyChecked && E.SignaturesAdded(c, s.engine).Some?
    ensures var t := Step(c, s, SignNow); t.texts == WIPED && t.engine.key == None && !t.keyChecked && t.page == Name
  {
    hide E.AfterSign, E.SignaturesAdded;
  }

  /** A character that arrives on the confirmation page takes the key away, whether
      or not there was room for it. */
  lemma CharacterDisarms(c: E.Crypto, s: State, ch: char)
    requires s.shown && s.page == Confirm && s.keyChecked && IsAllowed(s, ch)
    ensures var t := Step(c, s, Char(ch)); t.engine.key == None && Step(c, t, SignNow) == t
  {
    hide IsAllowed, Fits, Appended;
  }
}
