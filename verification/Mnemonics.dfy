// The shape of a recovery phrase and of the grids it is typed into.
module Mnemonics {
  import opened SlotText
  import opened SecureText

  const MAX_WORD_LENGTH := 8

  predicate IsWordCount(n: int) {
    n == 12 || n == 15 || n == 18 || n == 21 || n == 24
  }

  predicate IsLetter(c: char) {
    'a' <= c <= 'z'
  }

  predicate IsPrintable(c: char) {
    ' ' <= c <= '~'
  }

  /** What a cell can hold: a few lower-case letters. */
  predicate IsCell(x: string) {
    |x| <= MAX_WORD_LENGTH && forall k | 0 <= k < |x| :: IsLetter(x[k])
  }

  predicate AllCells(s: seq<string>) {
    forall k | 0 <= k < |s| :: IsCell(s[k])
  }

  /** The words of a generated phrase. */
  predicate IsPhrase(w: seq<string>) {
    IsWordCount(|w|) && AllCells(w) && AllFilled(w)
  }

  lemma CellsArePlain(s: seq<string>)
    requires AllCells(s)
    ensures AllSpaceless(s) && (AllFilled(s) ==> AllWords(s))
  {
    forall k | 0 <= k < |s| ensures Spaceless(s[k]) && (s[k] != "" ==> IsWord(s[k])) {
      assert IsCell(s[k]);
    }
  }

  lemma {:induction false} StartOfCell(s: seq<string>, i: nat)
    requires AllCells(s) && i < |s|
    ensures SlotStart(s, i) + |s[i]| <= (i + 1) * (MAX_WORD_LENGTH + 1) - 1
  {
    assert IsCell(s[i]);
    if i > 0 {
      StartOfCell(s, i - 1);
    }
  }

  /** A grid of cells is short: 24 words of 8 letters leave room to spare. */
  lemma GridLength(t: string)
    requires AllCells(Slots(t))
    ensures |t| <= |Slots(t)| * (MAX_WORD_LENGTH + 1) - 1
  {
    var s := Slots(t);
    hide Slots, SlotStart;
    JoinOfSlots(t);
    JoinLength(s);
    StartOfCell(s, |s| - 1);
  }

  lemma PhraseShape(w: seq<string>)
    requires IsPhrase(w)
    ensures Slots(Sentence(w)) == w && Words(Sentence(w)) == w && OnlySpaces(Sentence(w))
    ensures 0 < |Sentence(w)| < CAPACITY
  {
    CellsArePlain(w);
    SlotsOfSentence(w);
    WordsOfSentence(w);
    GridLength(Sentence(w));
    SlotsOfEmpty();
    assert |Slots(Sentence(w))| > 1;
  }

  /** Editing inside a slot keeps the number of slots. */
  lemma EditsKeepCount(t: string, i: nat, c: char, w: string)
    ensures |Slots(SlotAppended(t, i, c))| == |Slots(t)|
    ensures |Slots(SlotBackspaced(t, i))| == |Slots(t)|
    ensures |Slots(SlotCleared(t, i))| == |Slots(t)|
    ensures |Slots(SlotSet(t, i, w))| == |Slots(t)|
  {
    hide Slots, SlotStart, WithSlot;
    if AppendFits(t, i, c) {
      SlotIsSpaceless(t, i, c);
    }
    if i < |Slots(t)| {
      SlotIsSpaceless(t, i, 'a');
    }
  }

  /** Laying out a grid gives the asked number of slots, or changes nothing. */
  lemma LayoutCount(t: string, n: nat)
    ensures |Slots(SlotCountSet(t, n))| == if CountFits(t, n) then n else |Slots(t)|
    ensures !CountFits(t, n) ==> SlotCountSet(t, n) == t
  {
    CountSetCases(t, n);
    hide Slots, SlotCountSet;
    if CountFits(t, n) {
      SlotCountSetSlots(t, n);
    }
  }
}
