// The test for a complete grid: as many words as slots.
module GridTests {
  import opened Sequences
  import opened SlotText

  /** The words of each slot, one slot after the other. */
  function WordsOfSlots(s: seq<string>): seq<string> {
    if s == [] then [] else WordsOfSlots(s[..|s| - 1]) + Words(s[|s| - 1])
  }

  lemma WordsOfSlotsSnoc(s: seq<string>, x: string)
    ensures WordsOfSlots(s + [x]) == WordsOfSlots(s) + Words(x)
  {
    assert (s + [x])[..|s|] == s;
  }

  lemma LengthenBehind(p: seq<string>, q: seq<string>, inWord: bool, c: char)
    requires inWord ==> q != []
    ensures Lengthen(p + q, inWord, c) == p + Lengthen(q, inWord, c)
  {
  }

  /** No word reaches over a slot: the words of a text are those of its slots, whatever
      whitespace is in them. */
  lemma {:induction false} WordsBySlots(t: string)
    ensures Words(t) == WordsOfSlots(Slots(t))
    ensures InWord(t) <==> InWord(Slots(t)[|Slots(t)| - 1])
    decreases |t|
  {
    hide Words, Slots, Extend, Lengthen, WordsOfSlots, IsWhitespace;
    if t == "" {
      SlotsOfEmpty();
      WordsOfEmpty();
      NoSlotsNoWords();
      WordsOfSlotsSnoc([], "");
      assert [] + [""] == [""];
    } else {
      var init, c := SplitLast(t);
      WordsBySlots(init);
      WordsSnoc(init, c);
      SlotsSnoc(init, c);
      var p, x := SplitLast(Slots(init));
      ExtendSnoc(p, x, c);
      WordsOfSlotsSnoc(p, x);
      if c == ' ' {
        WordsOfEmpty();
        WordsOfSlotsSnoc(p + [x], "");
        LengthenWhitespace(Words(init), InWord(init), c);
      } else {
        WordsSnoc(x, c);
        WordsOfSlotsSnoc(p, x + [c]);
        LengthenBehind(WordsOfSlots(p), Words(x), InWord(x), c);
      }
    }
  }

  lemma NoSlotsNoWords()
    ensures WordsOfSlots([]) == []
  {
  }

  lemma LengthenWhitespace(p: seq<string>, inWord: bool, c: char)
    requires (inWord ==> p != []) && c == ' '
    ensures IsWhitespace(c) && Lengthen(p, inWord, c) == p
  {
  }

  /** Slots with nothing in them. */
  function Vacant(s: seq<string>): nat {
    if s == [] then 0 else Vacant(s[..|s| - 1]) + if s[|s| - 1] == "" then 1 else 0
  }

  /** Slots with nothing but whitespace in them. */
  function Blank(s: seq<string>): nat {
    if s == [] then 0
    else Blank(s[..|s| - 1]) + if s[|s| - 1] != "" && Words(s[|s| - 1]) == [] then 1 else 0
  }

  /** Words that share their slot with an earlier one. */
  function Surplus(s: seq<string>): nat {
    if s == [] then 0
    else Surplus(s[..|s| - 1]) + if Words(s[|s| - 1]) == [] then 0 else |Words(s[|s| - 1])| - 1
  }

  lemma {:induction false} SlotsAndWordsBalance(s: seq<string>)
    ensures |WordsOfSlots(s)| + Vacant(s) + Blank(s) == |s| + Surplus(s)
    ensures Vacant(s) == 0 <==> AllFilled(s)
    decreases |s|
  {
    hide Words;
    if s != [] {
      var init, x := SplitLast(s);
      SlotsAndWordsBalance(init);
      WordsOfEmpty();
      assert AllFilled(s) <==> AllFilled(init) && x != "" by {
        assert s[|init|] == x && forall k | 0 <= k < |init| :: init[k] == s[k];
      }
    }
  }

  /** wordCount() == slotCount() is the test for a complete grid. On every text it holds
      exactly when the words that share a slot make up for the slots without one... */
  lemma CompleteGridExactly(t: string)
    ensures var s := Slots(t);
            && (|Words(t)| == |s| <==> Surplus(s) == Vacant(s) + Blank(s))
            && (AllFilled(s) <==> Vacant(s) == 0)
  {
    WordsBySlots(t);
    SlotsAndWordsBalance(Slots(t));
    hide *;
  }

  /** The two counts of a grid tell whether it has holes. */
  predicate CountsTell(s: seq<string>) {
    if Vacant(s) == 0 then Surplus(s) == Blank(s) else Surplus(s) != Vacant(s) + Blank(s)
  }

  /** ...and so it is right exactly when a full grid has as many surplus words as blank
      slots, and a grid with holes does not make up for all of them. */
  lemma CompleteGridTestRight(t: string)
    ensures (|Words(t)| == |Slots(t)| <==> AllFilled(Slots(t))) <==> CountsTell(Slots(t))
  {
    CompleteGridExactly(t);
    hide Slots, Words, Vacant, Surplus, Blank, AllFilled;
  }

  /** Where spaces are the only whitespace it is always right... */
  lemma {:induction false} CompleteGridTest(t: string)
    requires OnlySpaces(t)
    ensures |Words(t)| == |Slots(t)| <==> AllFilled(Slots(t))
  {
    WordsAreFilledSlots(t);
    FilledAll(Slots(t));
  }

  /** ...but a tab can deceive it: here two words, two slots, and the first slot is
      empty. */
  lemma {:induction false} CompleteGridTestNeedsSpaces()
    ensures |Words(" a\tb")| == |Slots(" a\tb")|
    ensures !AllFilled(Slots(" a\tb"))
  {
    hide Slots, Words, Glue;
    assert "" + " " == " " && " " + "a\tb" == " a\tb";
    SlotsOfEmpty();
    SlotsOfSeparated("");
    AppendSlot(" ", [""], "a\tb");
    assert Slots(" a\tb")[0] == "";
    WordsOfEmpty();
    WordsBeforeSpace("", ' ');
    AppendWord(" ", "a");
    assert " " + "a" == " a" && " a" + "\t" == " a\t" && " a\t" + "b" == " a\tb";
    WordsBeforeSpace(" a", '\t');
    AppendWord(" a\t", "b");
  }
}
