// The text of a SecureString, read in two ways.
//
// As a grid it is a list of slots separated by exactly one space each, any of
// which may be empty; as a sentence it is the list of words between runs of
// whitespace. Both readings are functions of the text alone, and the laws below
// are what every edit of the buffer is specified with.
module SlotText {
  import opened Sequences


  // --- slots --------------------------------------------------------------

  predicate Spaceless(s: string) {
    ' ' !in s
  }

  /** A grid after one more character: a space opens a new slot. */
  function Extend(p: seq<string>, c: char): (q: seq<string>)
    requires |p| >= 1
    ensures |q| >= 1
  {
    if c == ' ' then p + [""] else p[..|p| - 1] + [p[|p| - 1] + [c]]
  }

  /** The slots of a text: what stands between its spaces. */
  function Slots(t: string): (s: seq<string>)
    ensures |s| >= 1
  {
    if t == "" then [""] else Extend(Slots(t[..|t| - 1]), t[|t| - 1])
  }

  /** The text with the given slots. */
  function Join(s: seq<string>): string
    requires |s| >= 1
  {
    if |s| == 1 then s[0] else Join(s[..|s| - 1]) + " " + s[|s| - 1]
  }

  /** Two grids written one after the other share a slot at the seam. */
  function Glue(a: seq<string>, b: seq<string>): (g: seq<string>)
    requires |a| >= 1 && |b| >= 1
    ensures |g| == |a| + |b| - 1
  {
    a[..|a| - 1] + [a[|a| - 1] + b[0]] + b[1..]
  }

  predicate AllSpaceless(s: seq<string>) {
    forall k | 0 <= k < |s| :: Spaceless(s[k])
  }

  lemma ExtendSnoc(init: seq<string>, x: string, c: char)
    ensures Extend(init + [x], c) == if c == ' ' then init + [x] + [""] else init + [x + [c]]
  {
  }

  lemma SlotsSnoc(t: string, c: char)
    ensures Slots(t + [c]) == Extend(Slots(t), c)
  {
    assert (t + [c])[..|t|] == t;
  }

  lemma SlotsOfSeparated(t: string)
    ensures Slots(t + " ") == Slots(t) + [""]
  {
    SlotsSnoc(t, ' ');
  }

  lemma {:induction false} SlotsAreSpaceless(t: string)
    ensures AllSpaceless(Slots(t))
    decreases |t|
  {
    hide Slots, Extend;
    if t == "" {
      SlotsOfEmpty();
    } else {
      var init, c := SplitLast(t);
      SlotsAreSpaceless(init);
      SlotsSnoc(init, c);
      ExtendSpaceless(Slots(init), c);
    }
  }

  lemma ExtendSpaceless(p: seq<string>, c: char)
    requires |p| >= 1 && AllSpaceless(p)
    ensures AllSpaceless(Extend(p, c))
  {
    var init, x := SplitLast(p);
    assert Spaceless(p[|init|]);
    ExtendSnoc(init, x, c);
  }

  lemma GlueSnoc(p: seq<string>, x: string, y: string, q: seq<string>)
    ensures Glue(p + [x], [y] + q) == p + [x + y] + q
  {
  }

  lemma GlueExtend(p: seq<string>, q: seq<string>, c: char)
    requires |p| >= 1 && |q| >= 1
    ensures Glue(p, Extend(q, c)) == Extend(Glue(p, q), c)
  {
    hide Glue, Extend;
    var init, x := SplitLast(p);
    var y, rest := SplitFirst(q);
    GlueSnoc(init, x, y, rest);
    if rest == [] {
      assert [y] + rest == [] + [y] && init + [x + y] + rest == init + [x + y];
      ExtendSnoc([], y, c);
      ExtendSnoc(init, x + y, c);
      if c == ' ' {
        assert [] + [y] + [""] == [y] + [""];
        GlueSnoc(init, x, y, [""]);
      } else {
        assert [] + [y + [c]] == [y + [c]] + [];
        GlueSnoc(init, x, y + [c], []);
        assert x + (y + [c]) == x + y + [c];
        assert init + [x + y + [c]] + [] == init + [x + y + [c]];
      }
    } else {
      var mid, z := SplitLast(rest);
      assert [y] + (mid + [z]) == ([y] + mid) + [z];
      var g := init + [x + y] + mid;
      assert init + [x + y] + (mid + [z]) == g + [z];
      ExtendSnoc([y] + mid, z, c);
      ExtendSnoc(g, z, c);
      var tail := if c == ' ' then [z] + [""] else [z + [c]];
      assert Extend(q, c) == [y] + (mid + tail);
      GlueSnoc(init, x, y, mid + tail);
      assert g + tail == init + [x + y] + (mid + tail);
    }
  }

  lemma GlueEmpty(p: seq<string>)
    requires |p| >= 1
    ensures Glue(p, [""]) == p
  {
    hide Glue;
    var init, x := SplitLast(p);
    GlueSnoc(init, x, "", []);
    assert x + "" == x && [""] + [] == [""] && init + [x] + [] == init + [x];
  }

  lemma GlueSlot(p: seq<string>, x: string)
    ensures Glue(p + [""], [x]) == p + [x]
  {
    hide Glue;
    GlueSnoc(p, "", x, []);
    assert "" + x == x && [x] + [] == [x] && p + [x] + [] == p + [x];
  }

  lemma SlotsOfEmpty()
    ensures Slots("") == [""]
  {
  }

  lemma {:induction false} SlotsOfConcatenation(a: string, b: string)
    ensures Slots(a + b) == Glue(Slots(a), Slots(b))
    decreases |b|
  {
    hide *;
    if b == "" {
      assert a + b == a;
      SlotsOfEmpty();
      GlueEmpty(Slots(a));
    } else {
      var init, c := SplitLast(b);
      assert a + (init + [c]) == (a + init) + [c];
      SlotsOfConcatenation(a, init);
      SlotsSnoc(a + init, c);
      SlotsSnoc(init, c);
      GlueExtend(Slots(a), Slots(init), c);
    }
  }

  lemma {:induction false} JoinOfSlots(t: string)
    ensures Join(Slots(t)) == t
    decreases |t|
  {
    hide *;
    if t == "" {
      SlotsOfEmpty();
      JoinOfOne("");
    } else {
      var init, c := SplitLast(t);
      JoinOfSlots(init);
      SlotsSnoc(init, c);
      JoinOfExtend(Slots(init), c);
    }
  }

  lemma JoinOfOne(x: string)
    ensures Join([x]) == x
  {
  }

  lemma JoinSnoc(s: seq<string>, x: string)
    requires |s| >= 1
    ensures Join(s + [x]) == Join(s) + " " + x
  {
    assert (s + [x])[..|s|] == s;
  }

  lemma JoinOfExtend(s: seq<string>, c: char)
    requires |s| >= 1
    ensures Join(Extend(s, c)) == Join(s) + [c]
  {
    hide *;
    var init, x := SplitLast(s);
    ExtendSnoc(init, x, c);
    if c == ' ' {
      JoinSnoc(s, "");
      assert Join(s) + " " + "" == Join(s) + [c];
    } else {
      JoinGrowsLast(init, x, c);
    }
  }

  lemma JoinGrowsLast(init: seq<string>, x: string, c: char)
    ensures Join(init + [x + [c]]) == Join(init + [x]) + [c]
  {
    hide *;
    if init == [] {
      assert init + [x + [c]] == [x + [c]] && init + [x] == [x];
      JoinOfOne(x);
      JoinOfOne(x + [c]);
    } else {
      JoinSnoc(init, x);
      JoinSnoc(init, x + [c]);
      assert Join(init) + " " + (x + [c]) == (Join(init) + " " + x) + [c];
    }
  }

  lemma {:induction false} SlotsOfSlot(s: string)
    requires Spaceless(s)
    ensures Slots(s) == [s]
    decreases |s|
  {
    hide Slots, Extend;
    if s == "" {
      SlotsOfEmpty();
    } else {
      var init, c := SplitLast(s);
      assert c in s;
      SlotsOfSlot(init);
      SlotsSnoc(init, c);
      ExtendSnoc([], init, c);
      assert [] + [init] == [init] && [] + [s] == [s];
    }
  }

  // A space-free text written after a trailing separator is the last slot.
  lemma AppendSlot(t: string, p: seq<string>, x: string)
    requires Slots(t) == p + [""] && Spaceless(x)
    ensures Slots(t + x) == p + [x]
  {
    hide *;
    SlotsOfConcatenation(t, x);
    SlotsOfSlot(x);
    GlueSlot(p, x);
  }

  lemma {:induction false} SlotsOfJoin(s: seq<string>)
    requires |s| >= 1 && AllSpaceless(s)
    ensures Slots(Join(s)) == s
    decreases |s|
  {
    hide Slots, Join, Spaceless;
    var init, last := SplitLast(s);
    assert AllSpaceless(init) by { assert forall k | 0 <= k < |init| :: init[k] == s[k]; }
    assert Spaceless(last) by { assert s[|init|] == last; }
    if init == [] {
      assert s == [last];
      JoinOfOne(last);
      SlotsOfSlot(last);
    } else {
      SlotsOfJoin(init);
      SlotsOfSeparated(Join(init));
      AppendSlot(Join(init) + " ", init, last);
      JoinSnoc(init, last);
    }
  }

  /** A text is determined by its slots. */
  lemma SlotsInjective(t: string, u: string)
    requires Slots(t) == Slots(u)
    ensures t == u
  {
    hide *;
    JoinOfSlots(t);
    JoinOfSlots(u);
  }

  /** Where slot `i` begins. */
  function SlotStart(s: seq<string>, i: nat): nat
    requires i < |s|
  {
    if i == 0 then 0 else SlotStart(s, i - 1) + |s[i - 1]| + 1
  }

  lemma {:induction false} StartsAgree(p: seq<string>, s: seq<string>, i: nat)
    requires i < |s| && i <= |p| && forall k | 0 <= k < i :: s[k] == p[k]
    ensures i < |p| ==> SlotStart(s, i) == SlotStart(p, i)
    ensures 0 < i ==> SlotStart(s, i) == SlotStart(p, i - 1) + |p[i - 1]| + 1
  {
    if i > 0 {
      StartsAgree(p, s, i - 1);
    }
  }

  /** What stands before and after slot `i` in the joined text. */
  function Before(s: seq<string>, i: nat): string
    requires i < |s|
  {
    if i == 0 then "" else Join(s[..i]) + " "
  }

  function After(s: seq<string>, i: nat): string
    requires i < |s|
  {
    if i + 1 == |s| then "" else " " + Join(s[i + 1..])
  }

  lemma JoinHead(s: seq<string>, i: nat)
    requires i < |s|
    ensures Join(s[..i + 1]) == Before(s, i) + s[i]
  {
    hide Join;
    var l, x, r := SplitAt(s, i);
    if i > 0 {
      JoinSnoc(l, x);
    } else {
      assert l + [x] == [x];
      JoinOfOne(x);
      assert "" + x == x;
    }
  }

  lemma {:induction false} JoinConcatenation(p: seq<string>, q: seq<string>)
    requires |p| >= 1 && |q| >= 1
    ensures Join(p + q) == Join(p) + " " + Join(q)
    decreases |q|
  {
    hide *;
    var init, last := SplitLast(q);
    assert p + (init + [last]) == (p + init) + [last];
    if init == [] {
      assert q == [last] && p + init == p;
      JoinSnoc(p, last);
      JoinOfOne(last);
    } else {
      JoinConcatenation(p, init);
      JoinSnoc(p + init, last);
      JoinSnoc(init, last);
      assert Join(p) + " " + Join(init) + " " + last == Join(p) + " " + (Join(init) + " " + last);
    }
  }

  lemma JoinAround(s: seq<string>, i: nat)
    requires i < |s|
    ensures Join(s) == Before(s, i) + s[i] + After(s, i)
  {
    JoinHead(s, i);
    var l, x, r := SplitAt(s, i);
    AfterIs(s, i, r);
    hide *;
    JoinSplit(l + [x], r);
  }

  lemma AfterIs(s: seq<string>, i: nat, r: seq<string>)
    requires i < |s| && r == s[i + 1..]
    ensures After(s, i) == if r == [] then "" else " " + Join(r)
  {
  }

  lemma JoinSplit(p: seq<string>, r: seq<string>)
    requires |p| >= 1
    ensures Join(p + r) == Join(p) + if r == [] then "" else " " + Join(r)
  {
    hide *;
    if r == [] {
      assert p + r == p && Join(p) + "" == Join(p);
    } else {
      JoinConcatenation(p, r);
      assert Join(p) + " " + Join(r) == Join(p) + (" " + Join(r));
    }
  }

  lemma {:induction false} JoinLength(s: seq<string>)
    requires |s| >= 1
    ensures |Join(s)| == SlotStart(s, |s| - 1) + |s[|s| - 1]|
  {
    if |s| > 1 {
      var init := s[..|s| - 1];
      JoinLength(init);
      StartsAgree(init, s, |s| - 1);
    }
  }

  lemma BeforeLength(s: seq<string>, i: nat)
    requires i < |s|
    ensures |Before(s, i)| == SlotStart(s, i)
  {
    if i > 0 {
      JoinLength(s[..i]);
      StartsAgree(s[..i], s, i);
    }
  }

  lemma SlotsOfBefore(s: seq<string>, i: nat)
    requires i < |s| && AllSpaceless(s)
    ensures Slots(Before(s, i)) == s[..i] + [""]
  {
    if i > 0 {
      assert AllSpaceless(s[..i]);
      hide Slots, Join;
      SlotsOfJoin(s[..i]);
      SlotsOfSeparated(Join(s[..i]));
    }
  }

  lemma SlotsOfAfter(s: seq<string>, i: nat)
    requires i < |s| && AllSpaceless(s)
    ensures Slots(After(s, i)) == [""] + s[i + 1..]
  {
    if i + 1 < |s| {
      var rest := s[i + 1..];
      assert AllSpaceless(rest);
      hide Slots, Join, Glue;
      assert After(s, i) == " " + Join(rest);
      SlotsOfJoin(rest);
      SlotsOfConcatenation(" ", Join(rest));
      SlotsOfSeparated("");
      SlotsOfEmpty();
      assert "" + " " == " ";
      GlueSeparated(rest);
    }
  }

  lemma GlueSeparated(q: seq<string>)
    requires |q| >= 1
    ensures Glue([""] + [""], q) == [""] + q
  {
    hide Glue;
    var y, rest := SplitFirst(q);
    GlueSnoc([""], "", y, rest);
    assert "" + y == y && [""] + [y] + rest == [""] + ([y] + rest);
  }

  lemma CutAround(l: string, x: string, r: string)
    ensures var t := l + x + r; var b, e := |l|, |l| + |x|;
            && t[..b] == l && t[b..e] == x && t[e..] == r && t[..e] == l + x
  {
  }

  // The text up to the slot ends the grid of its predecessors with an empty
  // slot, and what follows opens the grid of its successors with one: this is
  // what makes an edit of the span an edit of that slot and of nothing else.
  lemma SlotSpan(t: string, i: nat)
    requires i < |Slots(t)|
    ensures var s := Slots(t); var b := SlotStart(s, i);
            && b + |s[i]| <= |t|
            && t[b..b + |s[i]|] == s[i]
            && Slots(t[..b]) == s[..i] + [""]
            && Slots(t[b + |s[i]|..]) == [""] + s[i + 1..]
            && Slots(t[..b + |s[i]|]) == s[..i + 1]
  {
    var s := Slots(t);
    SlotsAreSpaceless(t);
    assert AllSpaceless(s[..i + 1]);
    hide *;
    JoinOfSlots(t);
    JoinAround(s, i);
    JoinHead(s, i);
    BeforeLength(s, i);
    CutAround(Before(s, i), s[i], After(s, i));
    SlotsOfBefore(s, i);
    SlotsOfAfter(s, i);
    SlotsOfJoin(s[..i + 1]);
  }

  lemma GlueAround(p: seq<string>, x: string, q: seq<string>)
    ensures Glue(p + [x], [""] + q) == p + [x] + q
  {
    hide Glue;
    GlueSnoc(p, x, "", q);
    assert x + "" == x;
  }

  /** Writing a space-free `x` over the span of slot `i` replaces that slot. */
  lemma SpanReplaced(t: string, i: nat, x: string)
    requires i < |Slots(t)| && Spaceless(x)
    ensures var s := Slots(t); var b := SlotStart(s, i);
            && b + |s[i]| <= |t|
            && Slots(t[..b] + x + t[b + |s[i]|..]) == s[i := x]
  {
    hide *;
    SlotSpan(t, i);
    var s := Slots(t);
    var b := SlotStart(s, i);
    AppendSlot(t[..b], s[..i], x);
    SlotsOfConcatenation(t[..b] + x, t[b + |s[i]|..]);
    GlueAround(s[..i], x, s[i + 1..]);
    UpdateAsConcatenation(s, i, x);
  }

  lemma UpdateAsConcatenation(s: seq<string>, i: nat, x: string)
    requires i < |s|
    ensures s[i := x] == s[..i] + [x] + s[i + 1..]
  {
  }

  // --- words --------------------------------------------------------------

  predicate IsWhitespace(c: char) {
    c == ' ' || c == '\t' || c == '\n' || c == '\r'
  }

  predicate InWord(t: string) {
    t != "" && !IsWhitespace(t[|t| - 1])
  }

  predicate IsWord(w: string) {
    w != "" && forall k | 0 <= k < |w| :: !IsWhitespace(w[k])
  }

  predicate AllWords(w: seq<string>) {
    forall k | 0 <= k < |w| :: IsWord(w[k])
  }

  /** The words seen so far after one more character. */
  function Lengthen(p: seq<string>, inWord: bool, c: char): (q: seq<string>)
    requires inWord ==> p != []
  {
    if IsWhitespace(c) then p
    else if inWord then p[..|p| - 1] + [p[|p| - 1] + [c]]
    else p + [[c]]
  }

  /** The words of a text: its maximal runs of non-whitespace. */
  function Words(t: string): (w: seq<string>)
    ensures InWord(t) ==> w != []
  {
    if t == "" then [] else Lengthen(Words(t[..|t| - 1]), InWord(t[..|t| - 1]), t[|t| - 1])
  }

  /** Words joined by single spaces; no words is the empty text. */
  function Sentence(w: seq<string>): string {
    if w == [] then "" else Join(w)
  }

  lemma WordsSnoc(t: string, c: char)
    ensures Words(t + [c]) == Lengthen(Words(t), InWord(t), c)
    ensures InWord(t + [c]) == !IsWhitespace(c)
  {
    assert (t + [c])[..|t|] == t;
  }

  lemma WordsOfEmpty()
    ensures Words("") == [] && !InWord("")
  {
  }

  lemma LengthenWords(p: seq<string>, inWord: bool, c: char)
    requires AllWords(p) && (inWord ==> p != [])
    ensures AllWords(Lengthen(p, inWord, c))
  {
    if inWord && !IsWhitespace(c) {
      var init, x := SplitLast(p);
      assert IsWord(p[|init|]);
      LengthenSnoc(init, x, c);
      assert IsWord(x + [c]);
      assert forall k | 0 <= k < |init| :: init[k] == p[k];
    }
  }

  lemma LengthenSnoc(init: seq<string>, x: string, c: char)
    requires !IsWhitespace(c)
    ensures Lengthen(init + [x], true, c) == init + [x + [c]]
  {
  }

  lemma {:induction false} WordsAreWords(t: string)
    ensures AllWords(Words(t))
    decreases |t|
  {
    hide Words, Lengthen;
    if t == "" {
      WordsOfEmpty();
    } else {
      var init, c := SplitLast(t);
      WordsAreWords(init);
      WordsSnoc(init, c);
      LengthenWords(Words(init), InWord(init), c);
    }
  }

  lemma {:induction false} WordsOfWord(w: string)
    requires IsWord(w)
    ensures Words(w) == [w]
    decreases |w|
  {
    hide Words;
    var init, c := SplitLast(w);
    assert w[|init|] == c;
    WordsSnoc(init, c);
    if init == "" {
      WordsOfEmpty();
      assert w == [c];
    } else {
      assert forall k | 0 <= k < |init| :: init[k] == w[k];
      WordsOfWord(init);
      LengthenSnoc([], init, c);
      assert [] + [init] == [init] && [] + [w] == [w];
    }
  }

  lemma LengthenAfter(a: seq<string>, p: seq<string>, inWord: bool, c: char)
    requires inWord ==> p != []
    ensures Lengthen(a + p, inWord, c) == a + Lengthen(p, inWord, c)
  {
    if inWord && !IsWhitespace(c) {
      var init, x := SplitLast(p);
      assert a + (init + [x]) == (a + init) + [x];
      LengthenSnoc(init, x, c);
      LengthenSnoc(a + init, x, c);
      assert (a + init) + [x + [c]] == a + (init + [x + [c]]);
    }
  }

  /** Words on either side of whitespace do not touch. */
  lemma {:induction false} WordsOfConcatenation(a: string, b: string)
    requires !InWord(a) || b == "" || IsWhitespace(b[0])
    ensures Words(a + b) == Words(a) + Words(b)
    ensures b != "" ==> InWord(a + b) == InWord(b)
    decreases |b|
  {
    hide Words, Lengthen;
    WordsOfEmpty();
    if b == "" {
      assert a + b == a;
    } else {
      var init, c := SplitLast(b);
      assert init != "" ==> init[0] == b[0];
      WordsOfConcatenation(a, init);
      assert a + (init + [c]) == (a + init) + [c];
      WordsSnoc(a + init, c);
      WordsSnoc(init, c);
      if init == "" {
        assert a + init == a && b[0] == c;
        LengthenFresh(Words(a), InWord(a), c);
      } else {
        LengthenAfter(Words(a), Words(init), InWord(init), c);
      }
    }
  }

  lemma LengthenFresh(p: seq<string>, inWord: bool, c: char)
    requires inWord ==> p != []
    requires !inWord || IsWhitespace(c)
    ensures Lengthen(p, inWord, c) == p + Lengthen([], false, c)
  {
  }

  // A word written where no word is under way is one more word.
  lemma AppendWord(t: string, w: string)
    requires !InWord(t) && IsWord(w)
    ensures Words(t + w) == Words(t) + [w]
  {
    WordsOfConcatenation(t, w);
    WordsOfWord(w);
  }

  lemma WordsBeforeSpace(t: string, c: char)
    requires IsWhitespace(c)
    ensures Words(t + [c]) == Words(t) && !InWord(t + [c])
  {
    WordsSnoc(t, c);
  }

  lemma {:induction false} WordsOfSentence(w: seq<string>)
    requires AllWords(w)
    ensures Words(Sentence(w)) == w
    decreases |w|
  {
    hide Words, Join, IsWord;
    if w == [] {
      WordsOfEmpty();
    } else if |w| == 1 {
      assert w == [w[0]] && IsWord(w[0]);
      JoinOfOne(w[0]);
      WordsOfWord(w[0]);
    } else {
      var init, last := SplitLast(w);
      assert AllWords(init) by { assert forall k | 0 <= k < |init| :: init[k] == w[k]; }
      assert IsWord(last) by { assert w[|init|] == last; }
      WordsOfSentence(init);
      WordsBeforeSpace(Join(init), ' ');
      AppendWord(Join(init) + " ", last);
      JoinSnoc(init, last);
    }
  }

  // --- the two readings together -------------------------------------------

  predicate OnlySpaces(t: string) {
    forall k | 0 <= k < |t| && IsWhitespace(t[k]) :: t[k] == ' '
  }

  predicate AllFilled(s: seq<string>) {
    forall k | 0 <= k < |s| :: s[k] != ""
  }

  /** How many slots of a grid hold anything. */
  function Filled(s: seq<string>): (n: nat)
    ensures n <= |s|
  {
    if s == [] then 0 else Filled(s[..|s| - 1]) + if s[|s| - 1] == "" then 0 else 1
  }

  lemma {:induction false} FilledAll(s: seq<string>)
    ensures Filled(s) == |s| <==> AllFilled(s)
    decreases |s|
  {
    if s != [] {
      var init, x := SplitLast(s);
      FilledAll(init);
      FilledSnoc(init, x);
      assert s[|init|] == x;
      assert forall k | 0 <= k < |init| :: init[k] == s[k];
    }
  }

  lemma FilledSnoc(s: seq<string>, x: string)
    ensures Filled(s + [x]) == Filled(s) + if x == "" then 0 else 1
  {
    assert (s + [x])[..|s|] == s;
  }

  lemma FilledExtend(p: seq<string>, c: char)
    requires |p| >= 1
    ensures Filled(Extend(p, c)) == Filled(p) + if c != ' ' && p[|p| - 1] == "" then 1 else 0
  {
    hide Extend, Filled;
    var init, x := SplitLast(p);
    ExtendSnoc(init, x, c);
    FilledSnoc(p, "");
    FilledSnoc(init, x);
    FilledSnoc(init, x + [c]);
  }

  /** Where spaces are the only whitespace, words are the filled slots. */
  lemma {:induction false} WordsAreFilledSlots(t: string)
    requires OnlySpaces(t)
    ensures |Words(t)| == Filled(Slots(t))
    ensures InWord(t) <==> Slots(t)[|Slots(t)| - 1] != ""
    decreases |t|
  {
    hide Words, Slots, Extend, Filled;
    if t == "" {
      SlotsOfEmpty();
      WordsOfEmpty();
      FilledSnoc([], "");
      FilledNone();
      assert [] + [""] == [""];
    } else {
      var init, c := SplitLast(t);
      OnlySpacesSnoc(init, c);
      WordsAreFilledSlots(init);
      WordsSnoc(init, c);
      SlotsSnoc(init, c);
      FilledExtend(Slots(init), c);
      var p, x := SplitLast(Slots(init));
      ExtendSnoc(p, x, c);
    }
  }

  lemma FilledNone()
    ensures Filled([]) == 0
  {
  }

  lemma OnlySpacesSnoc(init: string, c: char)
    requires OnlySpaces(init + [c])
    ensures OnlySpaces(init) && (IsWhitespace(c) ==> c == ' ')
  {
    var t := init + [c];
    assert t[|init|] == c;
    assert forall k | 0 <= k < |init| :: init[k] == t[k];
  }

  lemma {:induction false} JoinHasOnlySpaces(w: seq<string>)
    requires |w| >= 1 && AllWords(w)
    ensures OnlySpaces(Join(w))
    decreases |w|
  {
    hide Join;
    var init, x := SplitLast(w);
    assert IsWord(x) by { assert w[|init|] == x; }
    if init == [] {
      assert w == [x];
      JoinOfOne(x);
    } else {
      assert AllWords(init) by { assert forall k | 0 <= k < |init| :: init[k] == w[k]; }
      JoinHasOnlySpaces(init);
      JoinSnoc(init, x);
    }
  }

  lemma SlotsOfSentence(w: seq<string>)
    requires w != [] && AllWords(w)
    ensures Slots(Sentence(w)) == w && AllFilled(w) && OnlySpaces(Sentence(w))
  {
    assert AllSpaceless(w) && AllFilled(w) by {
      forall k | 0 <= k < |w| ensures Spaceless(w[k]) && w[k] != "" {
        assert IsWord(w[k]);
      }
    }
    SlotsOfJoin(w);
    JoinHasOnlySpaces(w);
  }

  predicate AllPlain(s: seq<string>) {
    forall k, j | 0 <= k < |s| && 0 <= j < |s[k]| :: !IsWhitespace(s[k][j])
  }

  lemma {:induction false} SlotsArePlain(t: string)
    requires OnlySpaces(t)
    ensures AllPlain(Slots(t))
    decreases |t|
  {
    hide Slots, Extend;
    if t == "" {
      SlotsOfEmpty();
    } else {
      var init, c := SplitLast(t);
      OnlySpacesSnoc(init, c);
      SlotsArePlain(init);
      SlotsSnoc(init, c);
      var p, x := SplitLast(Slots(init));
      ExtendSnoc(p, x, c);
    }
  }

  /** What normaliseWhitespace() leaves behind. */
  function Normalised(t: string): string {
    Sentence(Words(t))
  }

  lemma NormalisedKeepsWords(t: string)
    ensures Words(Normalised(t)) == Words(t)
    ensures Normalised(Normalised(t)) == Normalised(t)
  {
    WordsAreWords(t);
    WordsOfSentence(Words(t));
  }

  lemma FilledSlotsAreWords(t: string)
    requires OnlySpaces(t) && AllFilled(Slots(t))
    ensures Words(t) == Slots(t)
  {
    var s := Slots(t);
    SlotsArePlain(t);
    assert AllWords(s);
    JoinOfSlots(t);
    WordsOfSentence(s);
  }

  /** Exactly the complete grids and the empty text are already normal. */
  lemma NormalisedFixedPoints(t: string)
    ensures Normalised(t) == t <==> t == "" || (OnlySpaces(t) && AllFilled(Slots(t)))
  {
    WordsAreWords(t);
    hide Words, Slots, Join, OnlySpaces, AllFilled, AllWords;
    WordsOfEmpty();
    if t != "" && Normalised(t) == t {
      SlotsOfSentence(Words(t));
    }
    if t != "" && OnlySpaces(t) && AllFilled(Slots(t)) {
      FilledSlotsAreWords(t);
      JoinOfSlots(t);
    }
  }

  /** How a sentence grows with one more character of its text. */
  lemma SentenceGrows(p: seq<string>, inWord: bool, c: char)
    requires inWord ==> p != []
    requires !IsWhitespace(c)
    ensures Sentence(Lengthen(p, inWord, c))
         == if inWord || p == [] then Sentence(p) + [c] else Sentence(p) + " " + [c]
  {
    hide Join;
    if inWord {
      var init, x := SplitLast(p);
      LengthenSnoc(init, x, c);
      JoinGrowsLast(init, x, c);
    } else if p != [] {
      JoinSnoc(p, [c]);
    } else {
      assert p + [[c]] == [[c]] && "" + [c] == [c];
      JoinOfOne([c]);
    }
  }
}
