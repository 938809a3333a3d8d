// The two fast passes over a mnemonic grid: which cells hold no word of the
// wordlist, and how a re-typed grid compares with the generated one. Both
// report cells in a 32-bit mask, represented here by the set of its raised bits.
module Grid {
  import opened Wrappers
  import opened SlotText
  import opened SecureText

  type Mask = m: set<nat> | forall i | i in m :: i < 32

  // --- cells that are not words ------------------------------------------------

  /** Some of the first `n` entries of the list reads `s`; unreadable entries
      read nothing. */
  ghost predicate Listed(words: seq<Option<string>>, n: nat, s: string)
    requires n <= |words|
  {
    exists k | 0 <= k < n :: words[k] == Some(s)
  }

  ghost predicate Suspect(s: seq<string>, inProgressSlot: int, i: nat) {
    i < |s| && i != inProgressSlot && s[i] != ""
  }

  /** The cells the first `n` entries of the list do not account for. */
  ghost predicate Unaccounted(unknown: Mask, s: seq<string>, inProgressSlot: int, words: seq<Option<string>>, n: nat)
    requires n <= |words|
  {
    forall i: nat :: i in unknown <==> i < 32 && Suspect(s, inProgressSlot, i) && !Listed(words, n, s[i])
  }

  lemma AccountOne(m: Mask, u: Mask, s: seq<string>, inProgressSlot: int, words: seq<Option<string>>, n: nat)
    requires n < |words| && Unaccounted(m, s, inProgressSlot, words, n)
    requires forall i | i in m :: i < |s|
    requires forall i: nat :: i in u <==> i in m && words[n] != Some(s[i])
    ensures Unaccounted(u, s, inProgressSlot, words, n + 1)
  {
    forall i: nat
      ensures i in u <==> i < 32 && Suspect(s, inProgressSlot, i) && !Listed(words, n + 1, s[i])
    {
      assert i in m <==> i < 32 && Suspect(s, inProgressSlot, i) && !Listed(words, n, s[i]);
      if i < |s| {
        ListedOneMore(words, n, s[i]);
      }
    }
  }

  lemma NothingLeft(m: Mask, s: seq<string>, inProgressSlot: int, words: seq<Option<string>>, n: nat)
    requires n <= |words| && Unaccounted(m, s, inProgressSlot, words, n)
    requires m == {} || n == |words|
    ensures Unaccounted(m, s, inProgressSlot, words, |words|)
  {
    forall i: nat
      ensures i in m <==> i < 32 && Suspect(s, inProgressSlot, i) && !Listed(words, |words|, s[i])
    {
      assert i in m <==> i < 32 && Suspect(s, inProgressSlot, i) && !Listed(words, n, s[i]);
      if i < |s| && Listed(words, n, s[i]) {
        ListedMonotone(words, n, s[i]);
      }
    }
  }

  // A list that cannot be opened accounts for no cell at all.
  method UnknownSlots(mnemonic: SecureString, inProgressSlot: int, list: Option<seq<Option<string>>>)
    returns (unknown: Mask)
    requires mnemonic.Valid()
    ensures var s := Slots(mnemonic.Text());
            var words := if list.Some? then list.value else [];
            Unaccounted(unknown, s, inProgressSlot, words, |words|)
  {
    hide Slots, SlotStart;
    ghost var s := Slots(mnemonic.Text());
    var cellCount := mnemonic.SlotCount();
    unknown := {};
    var limit := if cellCount < 32 then cellCount else 32;
    for i := 0 to limit
      invariant forall j: nat :: j in unknown <==> j < i && Suspect(s, inProgressSlot, j)
    {
      if inProgressSlot >= 0 && inProgressSlot == i {
        continue;
      }
      var n := mnemonic.SlotLength(i);
      if n > 0 {
        unknown := unknown + {i};
      }
    }
    ghost var words' := if list.Some? then list.value else [];
    assert Unaccounted(unknown, s, inProgressSlot, words', 0);
    if unknown == {} || list.None? {
      NothingLeft(unknown, s, inProgressSlot, words', 0);
      return;
    }
    var words := list.value;
    var w := 0;
    while w < |words| && unknown != {}
      invariant 0 <= w <= |words|
      invariant Unaccounted(unknown, s, inProgressSlot, words, w)
    {
      ghost var before := unknown;
      if words[w].Some? {
        unknown := ClearMatches(mnemonic, words[w].value, limit, unknown);
      }
      AccountOne(before, unknown, s, inProgressSlot, words, w);
      w := w + 1;
    }
    NothingLeft(unknown, s, inProgressSlot, words, w);
  }

  // The inner loop: every outstanding cell that reads `word` is accounted for.
  method ClearMatches(mnemonic: SecureString, word: string, limit: nat, outstanding: Mask)
    returns (unknown: Mask)
    requires mnemonic.Valid()
    requires limit <= 32 && limit <= |Slots(mnemonic.Text())|
    requires forall j | j in outstanding :: j < limit
    ensures forall j: nat ::
              j in unknown <==> j in outstanding && Slots(mnemonic.Text())[j] != word
  {
    hide Slots, SlotStart;
    ghost var s := Slots(mnemonic.Text());
    unknown := outstanding;
    for i := 0 to limit
      invariant forall j: nat | j in unknown :: j in outstanding && (j < i ==> s[j] != word)
      invariant forall j: nat | j in outstanding :: j in unknown || (j < i && s[j] == word)
    {
      if i !in unknown {
        continue;
      }
      var found, start, length := mnemonic.FindSlot(i);
      if !found || length != |word| {
        assert s[i] != word;
        continue;
      }
      assert mnemonic.buf[start..start + length] == mnemonic.Text()[start..start + length] == s[i];
      if mnemonic.buf[start..start + length] == word {
        unknown := unknown - {i};
      }
    }
  }

  lemma ListedOneMore(words: seq<Option<string>>, n: nat, s: string)
    requires n < |words|
    ensures Listed(words, n + 1, s) <==> Listed(words, n, s) || words[n] == Some(s)
  {
  }

  lemma ListedMonotone(words: seq<Option<string>>, n: nat, s: string)
    requires n <= |words| && Listed(words, n, s)
    ensures Listed(words, |words|, s)
  {
  }

  // --- the re-typed grid against the generated one -------------------------------

  /** `wrong` marks finished cells that differ; `correct` and `filled` count. */
  datatype GridMatch = GridMatch(wrong: Mask, correct: nat, filled: nat, complete: bool)

  predicate CellCorrect(typed: seq<string>, reference: seq<string>, i: nat) {
    i < |typed| && i < |reference| && typed[i] != "" && typed[i] == reference[i]
  }

  // The cell under the cursor is half typed, not wrong, while it still is a
  // proper beginning of its word.
  predicate CellWrong(typed: seq<string>, reference: seq<string>, cursor: int, i: nat) {
    && i < |typed| && i < |reference| && typed[i] != ""
    && typed[i] != reference[i]
    && !(i == cursor && typed[i] < reference[i])
  }

  function CountCorrect(typed: seq<string>, reference: seq<string>, n: nat): (c: nat)
    ensures c <= n
  {
    if n == 0 then 0
    else CountCorrect(typed, reference, n - 1) + if CellCorrect(typed, reference, n - 1) then 1 else 0
  }

  function CountFilled(typed: seq<string>, n: nat): (c: nat)
    ensures c <= n
  {
    if n == 0 then 0
    else CountFilled(typed, n - 1) + if n <= |typed| && typed[n - 1] != "" then 1 else 0
  }

  lemma {:induction false} CountCorrectAll(typed: seq<string>, reference: seq<string>, n: nat)
    ensures CountCorrect(typed, reference, n) == n <==>
            forall i: nat | i < n :: CellCorrect(typed, reference, i)
  {
    if n > 0 {
      CountCorrectAll(typed, reference, n - 1);
    }
  }

  /** What `complete` claims about two grids. */
  predicate Complete(typed: seq<string>, reference: seq<string>) {
    |reference| <= 32 && CountCorrect(typed, reference, |reference|) == |reference|
  }

  method CompareGrid(typed: SecureString, reference: SecureString, cursor: int) returns (m: GridMatch)
    requires typed.Valid() && reference.Valid()
    ensures var t, r := Slots(typed.Text()), Slots(reference.Text());
            var n := if |r| < 32 then |r| else 32;
            && (forall i: nat :: i in m.wrong <==> i < n && CellWrong(t, r, cursor, i))
            && m.correct == CountCorrect(t, r, n)
            && m.filled == CountFilled(t, n)
            && m.complete == Complete(t, r)
  {
    hide Slots, SlotStart;
    ghost var t, r := Slots(typed.Text()), Slots(reference.Text());
    var wrong: Mask, correct, filled := {}, 0, 0;
    var cellCount := reference.SlotCount();
    var i := 0;
    while i < cellCount && i < 32
      invariant 0 <= i <= cellCount && i <= 32
      invariant forall j: nat :: j in wrong <==> j < i && CellWrong(t, r, cursor, j)
      invariant correct == CountCorrect(t, r, i)
      invariant filled == CountFilled(t, i)
    {
      var tf, ts, tl := typed.FindSlot(i);
      var rf, rs, rl := reference.FindSlot(i);
      if tf && rf && tl != 0 {
        filled := filled + 1;
        var tc, rc := typed.buf[ts..ts + tl], reference.buf[rs..rs + rl];
        assert tc == typed.Text()[ts..ts + tl] && rc == reference.Text()[rs..rs + rl];
        assert (t[i] < r[i]) == (tl < rl && tc == rc[..tl]);
        if tl == rl && tc == rc {
          correct := correct + 1;
        } else {
          var inProgress := cursor >= 0 && cursor == i && tl < rl && tc == rc[..tl];
          if !inProgress {
            wrong := wrong + {i};
          }
        }
      }
      i := i + 1;
    }
    m := GridMatch(wrong, correct, filled, cellCount > 0 && correct == cellCount);
  }

  /** `complete` says every generated word was re-typed in its place. */
  lemma CompleteMeansRetyped(typed: seq<string>, reference: seq<string>)
    ensures Complete(typed, reference) <==>
            |reference| <= 32 && reference <= typed && AllFilled(reference)
  {
    CountCorrectAll(typed, reference, |reference|);
    if reference <= typed && AllFilled(reference) {
      forall i: nat | i < |reference| ensures CellCorrect(typed, reference, i) {
        assert reference[i] == typed[..|reference|][i];
      }
    }
    if |reference| > 0 && forall i: nat | i < |reference| :: CellCorrect(typed, reference, i) {
      assert CellCorrect(typed, reference, |reference| - 1);
      var head := typed[..|reference|];
      forall i: nat | i < |reference| ensures reference[i] == head[i] && reference[i] != "" {
        assert CellCorrect(typed, reference, i);
      }
      assert reference == head;
    }
  }

  /** A complete grid is the same text exactly when it has no more cells than the
      reference. */
  lemma CompleteMeansSameText(typed: string, reference: string)
    requires Complete(Slots(typed), Slots(reference))
    ensures typed == reference <==> |Slots(typed)| <= |Slots(reference)|
  {
    hide Slots;
    CompleteMeansRetyped(Slots(typed), Slots(reference));
    if |Slots(typed)| <= |Slots(reference)| {
      SlotsInjective(typed, reference);
    }
  }

  /** With more cells it need not be. */
  lemma CompleteIgnoresSurplusCells()
    ensures Complete(["a", "b"], ["a"])
  {
    assert CellCorrect(["a", "b"], ["a"], 0);
    CountCorrectAll(["a", "b"], ["a"], 1);
  }
}
