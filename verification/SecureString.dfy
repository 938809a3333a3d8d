// The fixed-capacity secret buffer. Every edit happens in place in one array;
// every contract is about the text the array holds, read as slots or as words.
module SecureText {
  import opened Sequences
  import opened SlotText

  const CAPACITY: nat := 320

  // --- what each edit does to the text ------------------------------------
  //
  // An edit that would not fit leaves the text alone, with one exception:
  // setSlot empties the slot before it finds out whether the new word fits.

  predicate Fits(t: string, n: nat) {
    |t| + n + 1 <= CAPACITY
  }

  function Appended(t: string, s: string): string {
    if Fits(t, |s|) then t + s else t
  }

  // The private edits at an offset, which the slot edits are made of.

  predicate InsertFits(t: string, pos: nat, s: string) {
    pos <= |t| && (s == "" || Fits(t, |s|))
  }

  function Inserted(t: string, pos: nat, s: string): string {
    if InsertFits(t, pos, s) then t[..pos] + s + t[pos..] else t
  }

  function Erased(t: string, pos: nat, n: nat): string {
    if pos >= |t| then t
    else if pos + n >= |t| then t[..pos]
    else t[..pos] + t[pos + n..]
  }

  function Backspaced(t: string): string {
    if t == "" then "" else t[..|t| - 1]
  }

  predicate IsBlank(c: char) {
    c == ' ' || c == '\t'
  }

  function WithoutTrailing(t: string, blank: bool): (r: string)
    ensures r <= t
    ensures r != "" ==> IsBlank(r[|r| - 1]) != blank
    ensures forall k | |r| <= k < |t| :: IsBlank(t[k]) == blank
  {
    if t == "" || IsBlank(t[|t| - 1]) != blank then t else WithoutTrailing(t[..|t| - 1], blank)
  }

  function WordBackspaced(t: string): (r: string)
    ensures r <= t
  {
    WithoutTrailing(WithoutTrailing(t, true), false)
  }

  function WithSlot(t: string, i: nat, x: string): (r: string)
    requires i < |Slots(t)| && Spaceless(x)
    ensures Slots(r) == Slots(t)[i := x]
  {
    SpanReplaced(t, i, x);
    var b := SlotStart(Slots(t), i);
    t[..b] + x + t[b + |Slots(t)[i]|..]
  }

  lemma SlotIsSpaceless(t: string, i: nat, c: char)
    requires i < |Slots(t)| && c != ' '
    ensures Spaceless(Slots(t)[i] + [c])
    ensures Slots(t)[i] != "" ==> Spaceless(Slots(t)[i][..|Slots(t)[i]| - 1])
  {
    SlotsAreSpaceless(t);
    assert Spaceless(Slots(t)[i]);
  }

  predicate AppendFits(t: string, i: nat, c: char) {
    c != ' ' && i < |Slots(t)| && Fits(t, 1)
  }

  function SlotAppended(t: string, i: nat, c: char): string {
    if AppendFits(t, i, c) then
      SlotIsSpaceless(t, i, c);
      WithSlot(t, i, Slots(t)[i] + [c])
    else t
  }

  function SlotBackspaced(t: string, i: nat): string {
    if i < |Slots(t)| && Slots(t)[i] != "" then
      SlotIsSpaceless(t, i, 'a');
      WithSlot(t, i, Slots(t)[i][..|Slots(t)[i]| - 1])
    else t
  }

  function SlotCleared(t: string, i: nat): string {
    if i < |Slots(t)| then WithSlot(t, i, "") else t
  }

  predicate SetFits(t: string, i: nat, w: string) {
    Spaceless(w) && i < |Slots(t)| && (w == "" || Fits(SlotCleared(t, i), |w|))
  }

  function SlotSet(t: string, i: nat, w: string): string {
    if SetFits(t, i, w) then WithSlot(t, i, w)
    else if Spaceless(w) then SlotCleared(t, i)
    else t
  }

  predicate CountFits(t: string, count: nat) {
    count != 0 && (|Slots(t)| < count ==> Fits(t, count - |Slots(t)|))
  }

  function Empties(n: nat): (e: seq<string>)
    ensures |e| == n && forall k | 0 <= k < n :: e[k] == ""
  {
    seq(n, _ => "")
  }

  function Blanks(n: nat): (b: string)
    ensures |b| == n && forall k | 0 <= k < n :: b[k] == ' '
  {
    seq(n, _ => ' ')
  }

  lemma BlanksSnoc(n: nat)
    ensures Blanks(n + 1) == Blanks(n) + " "
    ensures Empties(n + 1) == Empties(n) + [""]
  {
  }

  lemma {:induction false} SlotsOfBlanks(t: string, n: nat)
    ensures Slots(t + Blanks(n)) == Slots(t) + Empties(n)
  {
    if n == 0 {
      assert t + Blanks(0) == t;
    } else {
      SlotsOfBlanks(t, n - 1);
      hide Slots, Blanks, Empties;
      BlanksSnoc(n - 1);
      var u := t + Blanks(n - 1);
      assert t + Blanks(n) == u + " ";
      SlotsOfSeparated(u);
      assert Slots(t) + Empties(n - 1) + [""] == Slots(t) + Empties(n);
    }
  }

  function SlotCountSet(t: string, count: nat): string {
    var s := Slots(t);
    if !CountFits(t, count) then t
    else if |s| <= count then t + Blanks(count - |s|)
    else
      SlotSpan(t, count - 1);
      t[..SlotStart(s, count - 1) + |s[count - 1]|]
  }

  /** More slots are added empty; fewer drop the slots past the new end. */
  lemma SlotCountSetSlots(t: string, count: nat)
    requires CountFits(t, count)
    ensures |Slots(t)| <= count ==> Slots(SlotCountSet(t, count)) == Slots(t) + Empties(count - |Slots(t)|)
    ensures count <= |Slots(t)| ==> Slots(SlotCountSet(t, count)) == Slots(t)[..count]
  {
    hide Slots, SlotStart, Empties, Blanks;
    if |Slots(t)| <= count {
      SlotsOfBlanks(t, count - |Slots(t)|);
      if |Slots(t)| == count {
        NoBlanks(t, Slots(t));
      }
    } else {
      SlotSpan(t, count - 1);
    }
  }

  lemma NoBlanks(t: string, s: seq<string>)
    ensures t + Blanks(0) == t && s + Empties(0) == s[..|s|]
  {
  }

  lemma CountSetCases(t: string, count: nat)
    ensures CountFits(t, count) <==> count != 0 && (|Slots(t)| < count ==> Fits(t, count - |Slots(t)|))
    ensures count == |Slots(t)| ==> SlotCountSet(t, count) == t
    ensures !CountFits(t, count) ==> SlotCountSet(t, count) == t
    ensures CountFits(t, count) && |Slots(t)| < count ==> SlotCountSet(t, count) == t + Blanks(count - |Slots(t)|)
    ensures 0 < count < |Slots(t)| ==>
              var e := SlotStart(Slots(t), count - 1) + |Slots(t)[count - 1]|;
              e <= |t| && SlotCountSet(t, count) == t[..e]
  {
    if count == |Slots(t)| {
      assert t + Blanks(0) == t;
    }
    if 0 < count < |Slots(t)| {
      SlotSpan(t, count - 1);
    }
  }

  /** The first slot with nothing in it, or the slot count. */
  function FirstEmpty(s: seq<string>): (i: nat)
    ensures i <= |s|
    ensures i < |s| ==> s[i] == ""
    ensures forall k | 0 <= k < i :: s[k] != ""
  {
    if s == [] || s[0] == "" then 0 else 1 + FirstEmpty(s[1..])
  }

  /** Every slot but `i` reads as before. */
  predicate OnlySlot(t: string, u: string, i: nat) {
    |Slots(u)| == |Slots(t)| && forall j | 0 <= j < |Slots(t)| && j != i :: Slots(u)[j] == Slots(t)[j]
  }

  lemma ReplacedIsLocal(t: string, i: nat, x: string)
    requires i < |Slots(t)| && Spaceless(x)
    ensures OnlySlot(t, WithSlot(t, i, x), i) && Slots(WithSlot(t, i, x))[i] == x
  {
    hide Slots, SlotStart;
  }

  lemma Untouched(t: string, i: nat)
    ensures OnlySlot(t, t, i)
  {
  }

  lemma AppendIsLocal(t: string, i: nat, c: char)
    ensures OnlySlot(t, SlotAppended(t, i, c), i)
    ensures AppendFits(t, i, c) ==> i < |Slots(t)| && Slots(SlotAppended(t, i, c))[i] == Slots(t)[i] + [c]
  {
    hide Slots, WithSlot, OnlySlot, Fits;
    Untouched(t, i);
    if AppendFits(t, i, c) {
      SlotIsSpaceless(t, i, c);
      ReplacedIsLocal(t, i, Slots(t)[i] + [c]);
      SameCount(t, SlotAppended(t, i, c), i);
    }
  }

  lemma SameCount(t: string, u: string, i: nat)
    requires OnlySlot(t, u, i)
    ensures |Slots(u)| == |Slots(t)|
  {
  }

  lemma BackspaceIsLocal(t: string, i: nat)
    ensures OnlySlot(t, SlotBackspaced(t, i), i)
    ensures i < |Slots(t)| && Slots(t)[i] != "" ==>
              i < |Slots(SlotBackspaced(t, i))| && Slots(SlotBackspaced(t, i))[i] == Slots(t)[i][..|Slots(t)[i]| - 1]
  {
    hide Slots, WithSlot, OnlySlot;
    Untouched(t, i);
    if i < |Slots(t)| && Slots(t)[i] != "" {
      SlotIsSpaceless(t, i, 'a');
      ReplacedIsLocal(t, i, Slots(t)[i][..|Slots(t)[i]| - 1]);
      SameCount(t, SlotBackspaced(t, i), i);
    }
  }

  lemma ClearIsLocal(t: string, i: nat)
    ensures OnlySlot(t, SlotCleared(t, i), i)
    ensures i < |Slots(t)| ==> i < |Slots(SlotCleared(t, i))| && Slots(SlotCleared(t, i))[i] == ""
  {
    hide Slots, WithSlot, OnlySlot;
    Untouched(t, i);
    if i < |Slots(t)| {
      ReplacedIsLocal(t, i, "");
      SameCount(t, SlotCleared(t, i), i);
    }
  }

  /** A word that does not fit leaves the slot empty rather than as it was. */
  lemma SetIsLocal(t: string, i: nat, w: string)
    ensures OnlySlot(t, SlotSet(t, i, w), i)
    ensures i < |Slots(t)| && Spaceless(w) ==>
              i < |Slots(SlotSet(t, i, w))| && Slots(SlotSet(t, i, w))[i] == if SetFits(t, i, w) then w else ""
  {
    hide Slots, WithSlot, OnlySlot, SlotCleared, Fits;
    Untouched(t, i);
    ClearIsLocal(t, i);
    if SetFits(t, i, w) {
      ReplacedIsLocal(t, i, w);
      SameCount(t, SlotSet(t, i, w), i);
    }
  }

  /** What "delete word" takes away besides trailing blanks: the last stretch without a
      space or a tab. */
  function LastStretch(t: string): string {
    WithoutTrailing(t, true)[|WordBackspaced(t)|..]
  }

  /** The words that go are those of the last stretch, on every text; so exactly one goes
      exactly when that stretch is one word. */
  lemma WordBackspacedDropsStretch(t: string)
    ensures Words(t) == Words(WordBackspaced(t)) + Words(LastStretch(t))
    ensures var w := Words(t);
            (w != [] && Words(WordBackspaced(t)) == w[..|w| - 1]) <==> |Words(LastStretch(t))| == 1
  {
    var u := WithoutTrailing(t, true);
    var r := WithoutTrailing(u, false);
    BlankTail(t, u);
    assert u == r + u[|r|..] && !InWord(r);
    hide Words, WithoutTrailing;
    WordsOfConcatenation(r, u[|r|..]);
    var w := Words(t);
    assert w[..|Words(r)|] == Words(r);
  }

  /** A line break does not end a stretch. In a text without one the last word goes. */
  lemma WordBackspacedDropsLastWord(t: string)
    requires forall k | 0 <= k < |t| :: t[k] != '\n' && t[k] != '\r'
    ensures var w := Words(t);
            Words(WordBackspaced(t)) == if w == [] then [] else w[..|w| - 1]
  {
    WordBackspacedDropsStretch(t);
    var x := LastStretch(t);
    if x == "" {
      WordsOfEmpty();
      assert WithoutTrailing(t, true) == "";
    } else {
      assert IsWord(x);
      WordsOfWord(x);
    }
    hide Words;
  }

  lemma {:induction false} BlankTail(t: string, u: string)
    requires u <= t && forall k | |u| <= k < |t| :: IsBlank(t[k])
    ensures Words(t) == Words(u)
    decreases |t|
  {
    if |u| < |t| {
      var init := t[..|t| - 1];
      BlankTail(init, u);
      assert t == init + [t[|t| - 1]];
      WordsBeforeSpace(init, t[|t| - 1]);
    } else {
      assert t == u;
    }
  }

  // --- the class -------------------------------------------------------------

  class SecureString {
    const buf: array<char>
    var len: nat

    /** The text fits below the capacity and everything past it is wiped. */
    ghost predicate Valid()
      reads this, buf
    {
      && buf.Length == CAPACITY
      && len < CAPACITY
      && forall k | len <= k < CAPACITY :: buf[k] == '\0'
    }

    ghost function Text(): string
      requires Valid()
      reads this, buf
    {
      buf[..len]
    }

    constructor ()
      ensures Valid() && fresh(buf)
      ensures Text() == ""
    {
      buf := new char[CAPACITY](_ => '\0');
      len := 0;
    }

    /** secureWipe() over `n` bytes from `from`. */
    method Wipe(from: nat, n: nat)
      requires from + n <= buf.Length
      modifies buf
      ensures forall k | 0 <= k < buf.Length ::
                buf[k] == if from <= k < from + n then '\0' else old(buf[k])
    {
      for i := 0 to n
        invariant forall k | 0 <= k < buf.Length ::
                    buf[k] == if from <= k < from + i then '\0' else old(buf[k])
      {
        buf[from + i] := '\0';
      }
    }

    method Append(c: char) returns (ok: bool)
      requires Valid()
      modifies this, buf
      ensures Valid() && Text() == Appended(old(Text()), [c])
      ensures ok <==> Fits(old(Text()), 1)
    {
      if len + 1 >= CAPACITY {
        return false;
      }
      buf[len] := c;
      len := len + 1;
      buf[len] := '\0';
      ok := true;
    }

    method AppendText(s: string) returns (ok: bool)
      requires Valid()
      modifies this, buf
      ensures Valid() && Text() == Appended(old(Text()), s)
      ensures ok <==> Fits(old(Text()), |s|)
    {
      if len + |s| + 1 > CAPACITY {
        return false;
      }
      for i := 0 to |s|
        modifies buf
        invariant buf[..len] == old(buf[..len])
        invariant buf[len..len + i] == s[..i]
        invariant forall k | len + i <= k < CAPACITY :: buf[k] == '\0'
      {
        buf[len + i] := s[i];
        assert buf[len..len + i + 1] == buf[len..len + i] + [s[i]];
      }
      assert buf[..len + |s|] == buf[..len] + buf[len..len + |s|];
      len := len + |s|;
      buf[len] := '\0';
      ok := true;
    }

    method Clear()
      requires Valid()
      modifies this, buf
      ensures Valid() && Text() == ""
    {
      Wipe(0, buf.Length);
      len := 0;
    }

    method Assign(s: string) returns (ok: bool)
      requires Valid()
      modifies this, buf
      ensures Valid() && Text() == Appended("", s)
      ensures ok <==> |s| < CAPACITY
    {
      Clear();
      ok := AppendText(s);
    }

    method Backspace()
      requires Valid()
      modifies this, buf
      ensures Valid() && Text() == Backspaced(old(Text()))
    {
      if len == 0 {
        return;
      }
      len := len - 1;
      buf[len] := '\0';
    }

    method BackspaceWord()
      requires Valid()
      modifies this, buf
      ensures Valid() && Text() == WordBackspaced(old(Text()))
    {
      hide WithoutTrailing;
      ghost var t := Text();
      while len > 0 && (buf[len - 1] == ' ' || buf[len - 1] == '\t')
        invariant Valid() && Text() <= t
        invariant forall k | len <= k < |t| :: IsBlank(t[k])
      {
        len := len - 1;
        buf[len] := '\0';
      }
      ghost var u := Text();
      WithoutTrailingUnique(t, true, u);
      while len > 0 && buf[len - 1] != ' ' && buf[len - 1] != '\t'
        invariant Valid() && Text() <= u
        invariant forall k | len <= k < |u| :: !IsBlank(u[k])
      {
        len := len - 1;
        buf[len] := '\0';
      }
      WithoutTrailingUnique(u, false, Text());
    }

    // The loop does not stop at the first difference.
    method Equals(other: SecureString) returns (same: bool)
      requires Valid() && other.Valid()
      ensures same <==> Text() == other.Text()
    {
      if len != other.len {
        return false;
      }
      var diff := false;
      for i := 0 to len
        invariant diff <==> buf[..i] != other.buf[..i]
      {
        assert buf[..i + 1] == buf[..i] + [buf[i]];
        assert other.buf[..i + 1] == other.buf[..i] + [other.buf[i]];
        diff := diff || buf[i] != other.buf[i];
      }
      same := !diff;
    }

    method WordCount() returns (count: nat)
      requires Valid()
      ensures count == |Words(Text())|
    {
      count := 0;
      var inWord := false;
      for i := 0 to len
        invariant count == |Words(Text()[..i])|
        invariant inWord == InWord(Text()[..i])
      {
        assert Text()[..i + 1] == Text()[..i] + [buf[i]];
        WordsSnoc(Text()[..i], buf[i]);
        var ws := IsWhitespace(buf[i]);
        if !ws && !inWord {
          count := count + 1;
          inWord := true;
        } else if ws {
          inWord := false;
        }
      }
      assert Text()[..len] == Text();
    }

    method TrailingWordLength() returns (n: nat)
      requires Valid()
      ensures n <= len
      ensures forall k | len - n <= k < len :: !IsWhitespace(Text()[k])
      ensures n < len ==> IsWhitespace(Text()[len - n - 1])
    {
      n := 0;
      var i := len;
      while i > 0
        invariant 0 <= i <= len && n == len - i
        invariant forall k | i <= k < len :: !IsWhitespace(buf[k])
      {
        if IsWhitespace(buf[i - 1]) {
          break;
        }
        n := n + 1;
        i := i - 1;
      }
    }

    // In place: the write index never overtakes the read index.
    method NormaliseWhitespace()
      requires Valid()
      modifies this, buf
      ensures Valid() && Text() == Normalised(old(Text()))
    {
      hide Normalised, InWord;
      ghost var t := Text();
      ghost var done := "";
      var w := 0;
      var pendingSpace := false;
      NormalisedEmpty(t);
      for r := 0 to len
        modifies buf
        invariant w + (if pendingSpace then 1 else 0) <= r
        invariant done == Normalised(t[..r]) && |done| == w
        invariant forall k | 0 <= k < w :: buf[k] == done[k]
        invariant pendingSpace <==> w > 0 && !InWord(t[..r])
        invariant forall k | r <= k < len :: buf[k] == t[k]
        invariant forall k | len <= k < CAPACITY :: buf[k] == '\0'
      {
        var c := buf[r];
        NormalisedStep(t, r);
        if IsWhitespace(c) {
          if w > 0 {
            pendingSpace := true;
          }
        } else {
          if pendingSpace {
            buf[w] := ' ';
            done := done + " ";
            w := w + 1;
            pendingSpace := false;
          }
          buf[w] := c;
          done := done + [c];
          w := w + 1;
        }
      }
      assert t[..len] == t;
      if w < len {
        Wipe(w, len - w);
      }
      len := w;
      buf[len] := '\0';
      assert Text() == done;
    }

    // --- inserting and erasing in the middle ----------------------------------

    /** Moves what follows `pos` to the right, backwards, so that nothing is overwritten
        before it is read. */
    method OpenGap(pos: nat, n: nat)
      requires buf.Length == CAPACITY && pos <= len && len + n < CAPACITY
      modifies buf
      ensures forall k | 0 <= k < pos || len + n <= k < CAPACITY :: buf[k] == old(buf[k])
      ensures forall k | pos + n <= k < len + n :: buf[k] == old(buf[k - n])
    {
      var i := len;
      while i > pos
        invariant pos <= i <= len
        invariant forall k | 0 <= k < i || len + n <= k < CAPACITY :: buf[k] == old(buf[k])
        invariant forall k | i + n <= k < len + n :: buf[k] == old(buf[k - n])
      {
        i := i - 1;
        buf[i + n] := buf[i];
      }
    }

    method InsertAt(pos: nat, s: string) returns (ok: bool)
      requires Valid()
      modifies this, buf
      ensures Valid() && Text() == Inserted(old(Text()), pos, s)
      ensures ok <==> InsertFits(old(Text()), pos, s)
    {
      hide Inserted;
      ghost var t := Text();
      ghost var u := Inserted(t, pos, s);
      Spliced(t, pos, s);
      if pos > len {
        return false;
      }
      var n := |s|;
      if n == 0 {
        return true;
      }
      if len + n + 1 > CAPACITY {
        return false;
      }
      OpenGap(pos, n);
      for j := 0 to n
        modifies buf
        invariant forall k | 0 <= k < pos + j :: buf[k] == u[k]
        invariant forall k | pos + n <= k < len + n :: buf[k] == u[k]
        invariant forall k | len + n <= k < CAPACITY :: buf[k] == '\0'
      {
        buf[pos + j] := s[j];
      }
      len := len + n;
      buf[len] := '\0';
      assert Text() == u;
      ok := true;
    }

    method EraseAt(pos: nat, count: nat)
      requires Valid()
      modifies this, buf
      ensures Valid() && Text() == Erased(old(Text()), pos, count)
    {
      hide Erased;
      ghost var t := Text();
      ghost var u := Erased(t, pos, count);
      Cut(t, pos, count);
      if pos >= len || count == 0 {
        return;
      }
      var n := if count > len - pos then len - pos else count;
      for i := pos to len - n
        modifies buf
        invariant forall k | 0 <= k < i :: buf[k] == u[k]
        invariant forall k | i <= k < len :: buf[k] == t[k]
        invariant forall k | len <= k < CAPACITY :: buf[k] == '\0'
      {
        buf[i] := buf[i + n];
      }
      // The shift left the secret's last n characters behind.
      Wipe(len - n, n);
      len := len - n;
      buf[len] := '\0';
      assert Text() == u;
    }

    // --- slots -----------------------------------------------------------------

    method SlotCount() returns (n: nat)
      requires Valid()
      ensures n == |Slots(Text())|
    {
      hide Slots;
      SlotsOfEmpty();
      assert Text()[..0] == "";
      n := 1;
      for i := 0 to len
        invariant n == |Slots(Text()[..i])|
      {
        assert Text()[..i + 1] == Text()[..i] + [buf[i]];
        SlotsSnoc(Text()[..i], buf[i]);
        if buf[i] == ' ' {
          n := n + 1;
        }
      }
      assert Text()[..len] == Text();
    }

    method FindSlot(index: nat) returns (found: bool, start: nat, length: nat)
      requires Valid()
      ensures found <==> index < |Slots(Text())|
      ensures found ==> start == SlotStart(Slots(Text()), index) && length == |Slots(Text())[index]|
      ensures found ==> start + length <= len && Text()[start..start + length] == Slots(Text())[index]
    {
      hide Slots, SlotStart;
      ghost var t := Text();
      var slot, begin := 0, 0;
      start, length := 0, 0;
      SlotOpened(t, 0);
      for i := 0 to len + 1
        invariant slot <= index
        invariant i <= len ==> AtSlot(t, i, slot, begin)
        invariant i > len ==> slot == |Slots(t)|
      {
        if i != len && buf[i] != ' ' {
          SlotContinues(t, i, slot, begin);
        } else {
          SlotClosed(t, i, slot, begin);
          if slot == index {
            SlotSpan(t, index);
            return true, begin, i - begin;
          }
          slot := slot + 1;
          begin := i + 1;
        }
      }
      found := false;
    }

    method SlotLength(index: nat) returns (n: nat)
      requires Valid()
      ensures n == if index < |Slots(Text())| then |Slots(Text())[index]| else 0
    {
      var found, start, length := FindSlot(index);
      n := if found then length else 0;
    }

    /** A NUL-terminated copy of a slot, cut to the room there is. */
    method CopySlot(index: nat, out: array<char>) returns (n: nat)
      requires Valid() && out != buf
      modifies out
      ensures var s := if index < |Slots(Text())| then Slots(Text())[index] else "";
              if out.Length == 0 then n == 0
              else n == (if |s| < out.Length then |s| else out.Length - 1)
                   && out[..n] == s[..n] && out[n] == '\0'
    {
      if out.Length == 0 {
        return 0;
      }
      out[0] := '\0';
      var found, start, length := FindSlot(index);
      if !found {
        return 0;
      }
      hide Slots, SlotStart;
      ghost var x := Slots(Text())[index];
      assert forall k | 0 <= k < length :: x[k] == Text()[start..start + length][k];
      n := if length < out.Length - 1 then length else out.Length - 1;
      for i := 0 to n
        modifies out
        invariant forall k | 0 <= k < i :: out[k] == x[k]
      {
        out[i] := buf[start + i];
      }
      out[n] := '\0';
    }

    method SetSlotCount(count: nat) returns (ok: bool)
      requires Valid()
      modifies this, buf
      ensures Valid() && Text() == SlotCountSet(old(Text()), count)
      ensures ok <==> CountFits(old(Text()), count)
    {
      hide SlotCountSet, Slots, SlotStart;
      ghost var t := Text();
      CountSetCases(t, count);
      if count == 0 {
        return false;
      }
      var cur := SlotCount();
      if cur == count {
        return true;
      }
      if cur < count {
        var add := count - cur;
        if len + add + 1 > CAPACITY {
          return false;
        }
        ghost var u := t + Blanks(add);
        for i := 0 to add
          modifies buf
          invariant forall k | 0 <= k < len + i :: buf[k] == u[k]
          invariant forall k | len + i <= k < CAPACITY :: buf[k] == '\0'
        {
          buf[len + i] := ' ';
        }
        len := len + add;
        buf[len] := '\0';
        assert Text() == u;
        return true;
      }
      var found, start, length := FindSlot(count - 1);
      var keep := start + length;
      if keep < len {
        Wipe(keep, len - keep);
      }
      len := keep;
      buf[len] := '\0';
      assert Text() == t[..keep];
      ok := true;
    }

    method AppendToSlot(index: nat, c: char) returns (ok: bool)
      requires Valid()
      modifies this, buf
      ensures Valid() && Text() == SlotAppended(old(Text()), index, c)
      ensures ok <==> AppendFits(old(Text()), index, c)
    {
      hide Slots, SlotStart, SlotAppended, AppendFits, Inserted, InsertFits;
      ghost var t := Text();
      SlotAppendedSplices(t, index, c);
      if c == ' ' {
        return false;
      }
      var found, start, length := FindSlot(index);
      if !found {
        return false;
      }
      ok := InsertAt(start + length, [c]);
    }

    method BackspaceInSlot(index: nat)
      requires Valid()
      modifies this, buf
      ensures Valid() && Text() == SlotBackspaced(old(Text()), index)
    {
      hide Slots, SlotStart, SlotBackspaced, Erased;
      ghost var t := Text();
      SlotBackspacedSplices(t, index);
      var found, start, length := FindSlot(index);
      if !found || length == 0 {
        return;
      }
      EraseAt(start + length - 1, 1);
    }

    method ClearSlot(index: nat)
      requires Valid()
      modifies this, buf
      ensures Valid() && Text() == SlotCleared(old(Text()), index)
    {
      hide Slots, SlotStart, SlotCleared, Erased;
      ghost var t := Text();
      var found, start, length := FindSlot(index);
      SlotClearedSplices(t, index);
      if !found || length == 0 {
        return;
      }
      EraseAt(start, length);
    }

    // Refused for lack of room, the slot is left empty rather than unchanged.
    method SetSlot(index: nat, s: string) returns (ok: bool)
      requires Valid()
      modifies this, buf
      ensures Valid() && Text() == SlotSet(old(Text()), index, s)
      ensures ok <==> SetFits(old(Text()), index, s)
    {
      ghost var t := Text();
      hide SlotSet, SlotCleared, SetFits, Slots, SlotStart;
      for i := 0 to |s|
        invariant forall k | 0 <= k < i :: s[k] != ' '
      {
        if s[i] == ' ' {
          SetRefused(t, index, s);
          return false;
        }
      }
      var found, start, length := FindSlot(index);
      if !found {
        SetRefused(t, index, s);
        return false;
      }
      hide Erased, Inserted, InsertFits;
      SlotSetSplices(t, index, s);
      EraseAt(start, length);
      ok := InsertAt(start, s);
    }

    method FirstEmptySlot() returns (i: nat)
      requires Valid()
      ensures i == FirstEmpty(Slots(Text()))
    {
      var count := SlotCount();
      for j := 0 to count
        invariant forall k | 0 <= k < j :: Slots(Text())[k] != ""
      {
        var n := SlotLength(j);
        if n == 0 {
          FirstEmptyUnique(Slots(Text()), j);
          return j;
        }
      }
      FirstEmptyUnique(Slots(Text()), count);
      i := count;
    }
  }

  // --- lemmas the loops above stop on ----------------------------------------

  lemma SetRefused(t: string, i: nat, w: string)
    requires !Spaceless(w) || i >= |Slots(t)|
    ensures SlotSet(t, i, w) == t && !SetFits(t, i, w)
  {
  }

  lemma SlotAppendedSplices(t: string, i: nat, c: char)
    ensures c == ' ' || i >= |Slots(t)| ==> !AppendFits(t, i, c) && SlotAppended(t, i, c) == t
    ensures c != ' ' && i < |Slots(t)| ==>
              var e := SlotStart(Slots(t), i) + |Slots(t)[i]|;
              && (AppendFits(t, i, c) <==> InsertFits(t, e, [c]))
              && SlotAppended(t, i, c) == Inserted(t, e, [c])
  {
    hide Slots, SlotStart;
    if c != ' ' && i < |Slots(t)| {
      SlotSpan(t, i);
      var b, x := SlotStart(Slots(t), i), Slots(t)[i];
      TakeTwice(t, b, x);
      assert t[..b] + (x + [c]) == t[..b] + x + [c];
    }
  }

  lemma SlotBackspacedSplices(t: string, i: nat)
    ensures if i >= |Slots(t)| || |Slots(t)[i]| == 0 then SlotBackspaced(t, i) == t
            else SlotBackspaced(t, i) == Erased(t, SlotStart(Slots(t), i) + |Slots(t)[i]| - 1, 1)
  {
    hide Slots, SlotStart;
    if i < |Slots(t)| && |Slots(t)[i]| > 0 {
      SlotSpan(t, i);
      var b, x := SlotStart(Slots(t), i), Slots(t)[i];
      var y, c := SplitLast(x);
      assert x[..|x| - 1] == y;
      assert t[b..b + |y|] == y by { assert t[b..b + |y|] == t[b..b + |x|][..|y|]; }
      TakeTwice(t, b, y);
      CutAndPaste(t, b + |y|, b + |x|, "");
    }
  }

  lemma SlotClearedSplices(t: string, i: nat)
    ensures if i >= |Slots(t)| then SlotCleared(t, i) == t
            else && SlotCleared(t, i) == Erased(t, SlotStart(Slots(t), i), |Slots(t)[i]|)
                 && (|Slots(t)[i]| == 0 ==> SlotCleared(t, i) == t)
  {
    hide Slots, SlotStart;
    if i < |Slots(t)| {
      SlotSpan(t, i);
      var b := SlotStart(Slots(t), i);
      CutAndPaste(t, b, b + |Slots(t)[i]|, "");
    }
  }

  lemma TakeTwice(t: string, b: nat, x: string)
    requires b + |x| <= |t| && t[b..b + |x|] == x
    ensures t[..b + |x|] == t[..b] + x
  {
  }

  // Erasing the span and inserting there is writing over the span.
  lemma SlotSetSplices(t: string, i: nat, w: string)
    requires i < |Slots(t)| && Spaceless(w)
    ensures var b := SlotStart(Slots(t), i);
            var bare := Erased(t, b, |Slots(t)[i]|);
            && (SetFits(t, i, w) <==> InsertFits(bare, b, w))
            && SlotSet(t, i, w) == Inserted(bare, b, w)
  {
    hide Slots, SlotStart;
    SlotSpan(t, i);
    SlotClearedSplices(t, i);
    var b := SlotStart(Slots(t), i);
    CutAndPaste(t, b, b + |Slots(t)[i]|, w);
  }

  lemma CutAndPaste(t: string, b: nat, e: nat, w: string)
    requires b <= e <= |t|
    ensures var bare := t[..b] + t[e..];
            && t[..b] + "" + t[e..] == bare
            && (e == |t| ==> bare == t[..b])
            && (b == e ==> bare == t)
            && bare[..b] + w + bare[b..] == t[..b] + w + t[e..]
  {
    var bare := t[..b] + t[e..];
    assert bare[..b] == t[..b] && bare[b..] == t[e..];
  }

  lemma Spliced(t: string, pos: nat, s: string)
    ensures var u := Inserted(t, pos, s);
            if InsertFits(t, pos, s) then
              && |u| == |t| + |s|
              && (forall k | 0 <= k < pos :: u[k] == t[k])
              && (forall k | pos <= k < pos + |s| :: u[k] == s[k - pos])
              && (forall k | pos + |s| <= k < |u| :: u[k] == t[k - |s|])
            else u == t
    ensures |s| == 0 ==> Inserted(t, pos, s) == t
  {
  }

  lemma Cut(t: string, pos: nat, count: nat)
    ensures var u := Erased(t, pos, count);
            if pos >= |t| || count == 0 then u == t
            else
              var n := if count > |t| - pos then |t| - pos else count;
              && |u| == |t| - n
              && (forall k | 0 <= k < pos :: u[k] == t[k])
              && (forall k | pos <= k < |u| :: u[k] == t[k + n])
  {
  }

  lemma {:induction false} WithoutTrailingUnique(t: string, blank: bool, u: string)
    requires u <= t && (u != "" ==> IsBlank(u[|u| - 1]) != blank)
    requires forall k | |u| <= k < |t| :: IsBlank(t[k]) == blank
    ensures WithoutTrailing(t, blank) == u
  {
    var v := WithoutTrailing(t, blank);
    assert u == t[..|u|] && v == t[..|v|];
    assert |u| > 0 ==> IsBlank(t[|u| - 1]) != blank;
    assert |v| > 0 ==> IsBlank(t[|v| - 1]) != blank;
  }

  lemma NormalisedEmpty(t: string)
    ensures Normalised(t[..0]) == "" && !InWord(t[..0])
  {
    assert t[..0] == "";
  }

  // How the normal form grows as one more character is read.
  lemma NormalisedStep(t: string, r: nat)
    requires r < |t|
    ensures var n, c, m := Normalised(t[..r]), t[r], Normalised(t[..r + 1]);
            && InWord(t[..r + 1]) == !IsWhitespace(c)
            && (InWord(t[..r]) ==> n != "")
            && m == if IsWhitespace(c) then n
                    else if InWord(t[..r]) || n == "" then n + [c]
                    else n + " " + [c]
  {
    assert t[..r + 1] == t[..r] + [t[r]];
    hide Words, Lengthen, Sentence, InWord;
    WordsSnoc(t[..r], t[r]);
    WordsAreWords(t[..r]);
    SentenceEmpty(Words(t[..r]));
    if IsWhitespace(t[r]) {
      WordsBeforeSpace(t[..r], t[r]);
    } else {
      SentenceGrows(Words(t[..r]), InWord(t[..r]), t[r]);
    }
  }

  lemma SentenceEmpty(w: seq<string>)
    requires AllWords(w)
    ensures Sentence(w) == "" <==> w == []
  {
    if w != [] {
      WordsOfSentence(w);
      WordsOfEmpty();
    }
  }

  lemma {:induction false} FirstEmptyUnique(s: seq<string>, i: nat)
    requires i <= |s| && (i < |s| ==> s[i] == "")
    requires forall k | 0 <= k < i :: s[k] != ""
    ensures FirstEmpty(s) == i
  {
  }

  /** Having read `i` characters, slot `slot` is open and began at `begin`. */
  ghost predicate AtSlot(t: string, i: nat, slot: nat, begin: nat)
    requires i <= |t|
  {
    var p := Slots(t[..i]);
    |p| == slot + 1 && begin == SlotStart(p, slot) && begin + |p[slot]| == i
  }

  lemma SlotOpened(t: string, i: nat)
    requires i == 0
    ensures i <= |t| && AtSlot(t, 0, 0, 0)
  {
    assert t[..0] == "";
  }

  lemma SlotContinues(t: string, i: nat, slot: nat, begin: nat)
    requires i < |t| && t[i] != ' ' && AtSlot(t, i, slot, begin)
    ensures AtSlot(t, i + 1, slot, begin)
  {
    assert t[..i + 1] == t[..i] + [t[i]];
    hide Slots, Extend;
    SlotsSnoc(t[..i], t[i]);
    var p, x := SplitLast(Slots(t[..i]));
    ExtendSnoc(p, x, t[i]);
    StartsAgree(Slots(t[..i]), Slots(t[..i + 1]), slot);
  }

  // A slot is closed where a space or the end of the text follows it.
  lemma SlotClosed(t: string, i: nat, slot: nat, begin: nat)
    requires i <= |t| && (i == |t| || t[i] == ' ') && AtSlot(t, i, slot, begin)
    ensures slot < |Slots(t)|
    ensures begin == SlotStart(Slots(t), slot) && begin + |Slots(t)[slot]| == i
    ensures if i == |t| then |Slots(t)| == slot + 1 else AtSlot(t, i + 1, slot + 1, i + 1)
  {
    hide Slots, Glue;
    var p := Slots(t[..i]);
    if i == |t| {
      assert t[..i] == t;
    } else {
      assert t[..i + 1] == t[..i] + " ";
      SlotsOfSeparated(t[..i]);
      StartsAgree(p, p + [""], slot + 1);
      assert t == t[..i + 1] + t[i + 1..];
      SlotsOfConcatenation(t[..i + 1], t[i + 1..]);
      var y, rest := SplitFirst(Slots(t[i + 1..]));
      GlueSnoc(p, "", y, rest);
      StartsAgree(p, Slots(t), slot);
    }
  }
}
