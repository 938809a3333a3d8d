// The entropy pool: a hash chain over everything sampled, and the rule that decides
// whether a key may be made from it.
module EntropyPools {
  import opened Wrappers
  import opened Sequences
  import opened Bytes

  type word = n: nat | n < 0x1_0000_0000_0000_0000
  type hash64 = h: bytes | |h| == 64 witness seq(64, _ => 0)

  const ALL_ONES: nat := 0xffff_ffff_ffff_ffff
  const CPU_WORDS := 32
  const ATTEMPTS := 10
  const HASH_LEN := 64

  // --- drawing words from one instruction ------------------------------------------
  //
  // read(k) is what the k-th execution of the instruction answers; None is a clear
  // carry flag.

  type instruction = nat -> Option<word>

  /** Up to `tries` executions from the k-th on: the word, and how many were used. */
  function Attempt(read: instruction, k: nat, tries: nat): (r: (Option<word>, nat))
    ensures k <= r.1 <= k + tries
    decreases tries
  {
    if tries == 0 then (None, k)
    else if read(k).Some? then (read(k), k + 1)
    else Attempt(read, k + 1, tries - 1)
  }

  /** `want` rounds of attempts; a round without an answer is given up. */
  function Draw(read: instruction, k: nat, want: nat): (words: seq<word>)
    ensures |words| <= want
    decreases want
  {
    if want == 0 then []
    else
      var (w, next) := Attempt(read, k, ATTEMPTS);
      (if w.Some? then [w.value] else []) + Draw(read, next, want - 1)
  }

  lemma DrawStep(read: instruction, k: nat, want: nat, rest: nat, w: Option<word>, next: nat)
    requires want == rest + 1 && (w, next) == Attempt(read, k, ATTEMPTS)
    ensures Draw(read, k, want) == (if w.Some? then [w.value] else []) + Draw(read, next, rest)
  {
    hide Attempt;
  }

  method TryWord(read: instruction, first: nat) returns (w: Option<word>, next: nat)
    ensures (w, next) == Attempt(read, first, ATTEMPTS)
  {
    w, next := None, first;
    var attempt := 0;
    while attempt < ATTEMPTS && w == None
      invariant attempt <= ATTEMPTS
      invariant if w == None then Attempt(read, first, ATTEMPTS) == Attempt(read, next, ATTEMPTS - attempt)
                else Attempt(read, first, ATTEMPTS) == (w, next)
    {
      w := read(next);
      next := next + 1;
      attempt := attempt + 1;
    }
  }

  method DrawCpuWords(read: instruction, want: nat, out: array<word>, at: nat) returns (got: nat)
    requires at + want <= out.Length
    modifies out
    ensures got == |Draw(read, 0, want)|
    ensures out[at..at + got] == Draw(read, 0, want)
    ensures out[..at] == old(out[..at])
  {
    hide Attempt, Draw;
    got := 0;
    var k := 0;
    NothingDrawn(read);
    for i := 0 to want
      invariant got <= i
      invariant out[at..at + got] + Draw(read, k, want - i) == Draw(read, 0, want)
      invariant out[..at] == old(out[..at])
    {
      ghost var before := out[at..at + got];
      var w, next := TryWord(read, k);
      DrawStep(read, k, want - i, want - i - 1, w, next);
      k := next;
      if w == None {
        continue;
      }
      out[at + got] := w.value;
      got := got + 1;
      assert out[at..at + got] == before + [w.value];
    }
  }

  lemma NothingDrawn(read: instruction)
    ensures forall k :: Draw(read, k, 0) == []
  {
  }

  // --- a stuck generator ---------------------------------------------------------------

  predicate Distinct(words: seq<word>) {
    forall i, j | 0 <= i < j < |words| :: words[i] != words[j]
  }

  predicate LooksSane(words: seq<word>) {
    && |words| >= 2
    && (forall i | 0 <= i < |words| :: words[i] != 0 && words[i] != ALL_ONES)
    && Distinct(words)
  }

  method CpuWordsLookSane(words: seq<word>) returns (sane: bool)
    ensures sane == LooksSane(words)
  {
    if |words| < 2 {
      return false;
    }
    for i := 0 to |words|
      invariant forall k | 0 <= k < i :: words[k] != 0 && words[k] != ALL_ONES
      invariant forall j, k | 0 <= j < k < i :: words[j] != words[k]
    {
      if words[i] == 0 || words[i] == ALL_ONES {
        return false;
      }
      for j := 0 to i
        invariant forall k | 0 <= k < j :: words[k] != words[i]
      {
        if words[i] == words[j] {
          return false;
        }
      }
    }
    return true;
  }

  // --- the hash chain --------------------------------------------------------------------

  /** HMAC-SHA512 as an unknown function that may fail. */
  type hmac = (bytes, bytes) -> Option<hash64>

  /** A sample that is empty, or a hash that fails, leaves the state alone. */
  function Mixed(h: hmac, state: hash64, sample: bytes): hash64 {
    if sample == [] then state
    else match h(state, sample)
         case None => state
         case Some(next) => next
  }

  function Fold(h: hmac, state: hash64, samples: seq<bytes>): hash64 {
    if samples == [] then state
    else Mixed(h, Fold(h, state, samples[..|samples| - 1]), samples[|samples| - 1])
  }

  lemma FoldSnoc(h: hmac, state: hash64, samples: seq<bytes>, sample: bytes)
    ensures Fold(h, state, samples + [sample]) == Mixed(h, Fold(h, state, samples), sample)
  {
    assert (samples + [sample])[..|samples|] == samples;
  }

  lemma {:induction false} FoldConcatenation(h: hmac, state: hash64, a: seq<bytes>, b: seq<bytes>)
    ensures Fold(h, state, a + b) == Fold(h, Fold(h, state, a), b)
    decreases |b|
  {
    if b == [] {
      assert a + b == a;
    } else {
      var init, last := SplitLast(b);
      assert a + b == (a + init) + [last];
      hide Fold;
      FoldConcatenation(h, state, a, init);
      FoldSnoc(h, state, a + init, last);
      FoldSnoc(h, Fold(h, state, a), init, last);
    }
  }

  // --- what the operator adds ----------------------------------------------------------------

  /** A 32-bit two's complement value. */
  function Bits32(n: int): nat {
    n % 0x1_0000_0000
  }

  /** The bytes of one pointer or key event: coordinates, clocks and a counter. */
  function UserSample(x: int, y: int, extra: nat, nanos: nat, cycles: nat, counter: nat): bytes {
    LittleEndian(Bits32(x), 4) + LittleEndian(Bits32(y), 4) + LittleEndian(extra, 4) + LittleEndian(0, 4)
    + LittleEndian(nanos, 8) + LittleEndian(cycles, 8) + LittleEndian(counter, 8)
  }

  /** Two events never fold in the same sample, even at the same place and time. */
  lemma SamplesDiffer(x: int, y: int, extra: nat, nanos: nat, cycles: nat, a: word,
                      x': int, y': int, extra': nat, nanos': nat, cycles': nat, b: word)
    requires a != b
    ensures UserSample(x, y, extra, nanos, cycles, a) != UserSample(x', y', extra', nanos', cycles', b)
  {
    Powers256();
    LittleEndianRoundTrip(a, 8);
    LittleEndianRoundTrip(b, 8);
    hide LittleEndian, Bits32;
    assert UserSample(x, y, extra, nanos, cycles, a)[32..] == LittleEndian(a, 8);
    assert UserSample(x', y', extra', nanos', cycles', b)[32..] == LittleEndian(b, 8);
  }

  // --- the machine's own sources ---------------------------------------------------------------

  /** A full block from a seeded generator, one from an unseeded generator, or none. */
  datatype Kernel = Seeded(block: bytes) | Unseeded(block: bytes) | Unavailable

  datatype Sources = Sources(kernel: Kernel, hasRdseed: bool, rdseed: instruction, hasRdrand: bool, rdrand: instruction,
                             jitter: bytes, misc: bytes)

  datatype Report = Report(kernelOk: bool, kernelWasReady: bool, rdseedWords: nat, rdrandWords: nat,
                           cpuRejected: nat, userSamples: nat)

  predicate PolicySatisfied(r: Report) {
    (r.kernelOk && r.kernelWasReady) || r.rdseedWords > 0
  }

  function SeedWords(s: Sources): (w: seq<word>)
    ensures |w| <= CPU_WORDS
  {
    if s.hasRdseed then Draw(s.rdseed, 0, CPU_WORDS) else []
  }

  /** RDRAND only fills what RDSEED left. */
  function RandWords(s: Sources): (w: seq<word>)
    ensures |SeedWords(s)| + |w| <= CPU_WORDS
  {
    var left := CPU_WORDS - |SeedWords(s)|;
    if s.hasRdrand && left > 0 then Draw(s.rdrand, 0, left) else []
  }

  function WordsBytes(words: seq<word>): (b: bytes)
    ensures |b| == 8 * |words|
  {
    if words == [] then [] else LittleEndian(words[0], 8) + WordsBytes(words[1..])
  }

  /** Everything a finalisation folds in, counted or not. */
  function Samples(s: Sources): seq<bytes> {
    (if s.kernel.Unavailable? then [] else [s.kernel.block])
    + [WordsBytes(SeedWords(s) + RandWords(s)), s.jitter, s.misc]
  }

  function Counted(words: seq<word>): nat {
    if LooksSane(words) then |words| else 0
  }

  function Rejected(words: seq<word>): nat {
    if LooksSane(words) then 0 else |words|
  }

  function ReportOf(s: Sources, userSamples: nat): Report {
    Report(!s.kernel.Unavailable?, s.kernel.Seeded?, Counted(SeedWords(s)), Counted(RandWords(s)),
           Rejected(SeedWords(s)) + Rejected(RandWords(s)), userSamples)
  }

  datatype Pool = Pool(state: hash64, userSamples: nat, counter: word)

  datatype Finalisation = Finalisation(pool: Pool, output: Option<bytes>, report: Option<Report>)

  const LABEL: bytes := [0x53, 0x69, 0x67, 0x6e, 0x65, 0x72, 0x4f, 0x53, 0x2f, 0x77, 0x61, 0x6c, 0x6c, 0x65, 0x74,
                         0x2d, 0x65, 0x6e, 0x74, 0x72, 0x6f, 0x70, 0x79, 0x2f, 0x76, 0x31]

  function Finalised(h: hmac, p: Pool, s: Sources, n: nat): Finalisation {
    if n == 0 || n > HASH_LEN then Finalisation(p, None, None)
    else
      var r := ReportOf(s, p.userSamples);
      var q := p.(state := Fold(h, p.state, Samples(s)));
      if !PolicySatisfied(r) then Finalisation(q, None, Some(r))
      else match h(q.state, LABEL)
           case None => Finalisation(q, None, Some(r))
           case Some(okm) => Finalisation(q.(state := Mixed(h, q.state, okm)), Some(okm[..n]), Some(r))
  }

  // --- accounting ---------------------------------------------------------------------------------

  /** Every word drawn is either counted or rejected, and there are at most 32. */
  lemma EveryWordAccounted(s: Sources, userSamples: nat)
    ensures var r := ReportOf(s, userSamples);
            r.rdseedWords + r.rdrandWords + r.cpuRejected == |SeedWords(s)| + |RandWords(s)| <= CPU_WORDS
  {
    hide Draw, LooksSane;
  }

  /** Whatever is counted came from a run of at least two different words, none of
      them a constant a broken generator is known for. */
  lemma CountedRunsAreSane(s: Sources, userSamples: nat)
    ensures var r := ReportOf(s, userSamples);
            && (r.rdseedWords > 0 ==> r.rdseedWords == |SeedWords(s)| && LooksSane(SeedWords(s)))
            && (r.rdrandWords > 0 ==> r.rdrandWords == |RandWords(s)| && LooksSane(RandWords(s)))
            && r.rdseedWords != 1 && r.rdrandWords != 1
  {
    hide Draw, Distinct;
  }

  /** The verdict does not depend on anything RDRAND says, nor on whether it is there. */
  lemma RdrandNeverDecides(s: Sources, t: Sources, userSamples: nat, others: nat)
    requires t == s.(rdrand := t.rdrand, hasRdrand := t.hasRdrand, jitter := t.jitter, misc := t.misc)
    ensures PolicySatisfied(ReportOf(s, userSamples)) == PolicySatisfied(ReportOf(t, others))
  {
    hide Draw, LooksSane;
  }

  /** The outcome of a finalisation can differ with RDRAND only by the last HMAC call
      failing for one and not for the other. */
  lemma VerdictIgnoresRdrand(h: hmac, p: Pool, s: Sources, t: Sources, n: nat)
    requires t == s.(rdrand := t.rdrand, hasRdrand := t.hasRdrand)
    ensures Finalised(h, p, s, n).output.Some? != Finalised(h, p, t, n).output.Some? ==>
      h(Fold(h, p.state, Samples(s)), LABEL).Some? != h(Fold(h, p.state, Samples(t)), LABEL).Some?
  {
    RdrandNeverDecides(s, t, p.userSamples, p.userSamples);
    hide ReportOf, Samples, Fold, PolicySatisfied;
  }

  // --- over a whole run -----------------------------------------------------------------------------

  datatype Event = Restart
                 | User(x: int, y: int, extra: nat, nanos: nat, cycles: nat)
                 | Make(sources: Sources, n: nat)

  function UserMixed(h: hmac, p: Pool, x: int, y: int, extra: nat, nanos: nat, cycles: nat): Pool {
    var counter := (p.counter + 1) % 0x1_0000_0000_0000_0000;
    Pool(Mixed(h, p.state, UserSample(x, y, extra, nanos, cycles, counter)), p.userSamples + 1, counter)
  }

  function After(h: hmac, domain: hash64, p: Pool, e: Event): Pool {
    match e
    case Restart => Pool(domain, 0, 0)
    case User(x, y, extra, nanos, cycles) => UserMixed(h, p, x, y, extra, nanos, cycles)
    case Make(s, n) => Finalised(h, p, s, n).pool
  }

  /** What the finalisations of a run reported, in order. */
  function Reports(h: hmac, domain: hash64, p: Pool, events: seq<Event>): seq<Option<Report>>
    decreases |events|
  {
    if events == [] then []
    else
      var e := events[0];
      (if e.Make? then [Finalised(h, p, e.sources, e.n).report] else [])
      + Reports(h, domain, After(h, domain, p, e), events[1..])
  }

  /** And which of them made a key. */
  function Outcomes(h: hmac, domain: hash64, p: Pool, events: seq<Event>): seq<bool>
    decreases |events|
  {
    if events == [] then []
    else
      var e := events[0];
      (if e.Make? then [Finalised(h, p, e.sources, e.n).output.Some?] else [])
      + Outcomes(h, domain, After(h, domain, p, e), events[1..])
  }

  /** The same events, but for RDRAND and for what is only ever folded in. */
  ghost predicate AlikeEvent(a: Event, b: Event) {
    if a.Make? && b.Make? then
      var s, t := a.sources, b.sources;
      a.n == b.n && t == s.(rdrand := t.rdrand, hasRdrand := t.hasRdrand, jitter := t.jitter, misc := t.misc)
    else a == b
  }

  ghost predicate Alike(a: seq<Event>, b: seq<Event>) {
    |a| == |b| && forall i | 0 <= i < |a| :: AlikeEvent(a[i], b[i])
  }

  /** A report without what it says about RDRAND. */
  function WithoutRdrand(r: Option<Report>): Option<Report> {
    match r
    case None => None
    case Some(x) => Some(x.(rdrandWords := 0, cpuRejected := 0))
  }

  lemma SameReport(h: hmac, p: Pool, q: Pool, s: Sources, t: Sources, n: nat)
    requires t == s.(rdrand := t.rdrand, hasRdrand := t.hasRdrand, jitter := t.jitter, misc := t.misc)
    requires p.userSamples == q.userSamples && p.counter == q.counter
    ensures var f, g := Finalised(h, p, s, n), Finalised(h, q, t, n);
            && WithoutRdrand(f.report) == WithoutRdrand(g.report)
            && (f.report.Some? ==> PolicySatisfied(f.report.value) == PolicySatisfied(g.report.value))
            && f.pool.userSamples == g.pool.userSamples && f.pool.counter == g.pool.counter
            && ((forall k :: h(k, LABEL).Some?) ==> f.output.Some? == g.output.Some?)
  {
    RdrandNeverDecides(s, t, p.userSamples, q.userSamples);
    AlikeReports(s, t, p.userSamples);
    FinalisedIs(h, p, s, n);
    FinalisedIs(h, q, t, n);
    hide Finalised, ReportOf, PolicySatisfied, WithoutRdrand;
  }

  lemma AlikeReports(s: Sources, t: Sources, userSamples: nat)
    requires t == s.(rdrand := t.rdrand, hasRdrand := t.hasRdrand, jitter := t.jitter, misc := t.misc)
    ensures WithoutRdrand(Some(ReportOf(s, userSamples))) == WithoutRdrand(Some(ReportOf(t, userSamples)))
  {
    hide Draw, LooksSane, RandWords;
  }

  lemma FinalisedIs(h: hmac, p: Pool, s: Sources, n: nat)
    ensures var f := Finalised(h, p, s, n);
            && f.report == (if n == 0 || n > HASH_LEN then None else Some(ReportOf(s, p.userSamples)))
            && f.pool.userSamples == p.userSamples && f.pool.counter == p.counter
            && ((forall k :: h(k, LABEL).Some?) ==>
                  (f.output.Some? <==> f.report.Some? && PolicySatisfied(f.report.value)))
    ensures WithoutRdrand(None) == None
  {
    hide ReportOf, PolicySatisfied, Samples, Fold, Mixed;
  }

  /** Two runs that differ in nothing but RDRAND, and so in the states of their pools: each
      finalisation reports the same in both, apart from RDRAND's own account, and passes
      the policy in both or in neither. While the last HMAC call answers, a key is made in
      the one exactly when it is in the other. */
  lemma {:induction false} RunsIgnoreRdrand(h: hmac, domain: hash64, p: Pool, q: Pool, a: seq<Event>, b: seq<Event>)
    requires Alike(a, b) && p.userSamples == q.userSamples && p.counter == q.counter
    ensures var r, s := Reports(h, domain, p, a), Reports(h, domain, q, b);
            && |r| == |s|
            && (forall i | 0 <= i < |r| :: WithoutRdrand(r[i]) == WithoutRdrand(s[i]))
            && (forall i | 0 <= i < |r| && r[i].Some? && s[i].Some? ::
                  PolicySatisfied(r[i].value) == PolicySatisfied(s[i].value))
    ensures (forall k :: h(k, LABEL).Some?) ==> Outcomes(h, domain, p, a) == Outcomes(h, domain, q, b)
    decreases |a|
  {
    hide Finalised, PolicySatisfied, WithoutRdrand, UserSample, Mixed;
    if a != [] {
      assert AlikeEvent(a[0], b[0]);
      if a[0].Make? {
        SameReport(h, p, q, a[0].sources, b[0].sources, a[0].n);
      }
      RunsIgnoreRdrand(h, domain, After(h, domain, p, a[0]), After(h, domain, q, b[0]), a[1..], b[1..]);
    }
  }

  lemma {:induction false} StuckDraw(read: instruction, k: nat, want: nat, w: word)
    requires forall i :: read(i) == Some(w)
    ensures forall j | 0 <= j < |Draw(read, k, want)| :: Draw(read, k, want)[j] == w
    decreases want
  {
    if want > 0 {
      StuckDraw(read, k + 1, want - 1, w);
      assert Attempt(read, k, ATTEMPTS) == (Some(w), k + 1);
    }
  }

  /** RDSEED stuck at one value, whichever it is, never makes a key by itself. */
  lemma StuckGeneratorRefused(h: hmac, p: Pool, s: Sources, n: nat, w: word)
    requires !s.kernel.Seeded? && forall i :: s.rdseed(i) == Some(w)
    ensures Finalised(h, p, s, n).output == None
  {
    StuckDraw(s.rdseed, 0, CPU_WORDS, w);
    var words := SeedWords(s);
    assert !LooksSane(words) by {
      if |words| >= 2 {
        assert words[0] == words[1];
      }
    }
    hide Draw, Samples, Fold, LooksSane, Mixed;
  }

  // --- the pool --------------------------------------------------------------------------------------

  class EntropyPool {
    const h: hmac
    const domain: hash64
    var state: hash64
    var userSamples: nat
    var counter: word
    ghost var mixed: seq<bytes>

    /** The state is the hash chain of every sample mixed in since the last reset. */
    ghost predicate Valid()
      reads this
    {
      state == Fold(h, domain, mixed)
    }

    function Now(): Pool
      reads this
    {
      Pool(state, userSamples, counter)
    }

    constructor (h: hmac, domain: hash64)
      ensures this.h == h && this.domain == domain && Valid() && mixed == [] && Now() == Pool(domain, 0, 0)
    {
      this.h, this.domain, state := h, domain, domain;
      userSamples, counter, mixed := 0, 0, [];
    }

    method Reset()
      modifies this
      ensures Valid() && mixed == [] && Now() == After(h, domain, old(Now()), Restart) == Pool(domain, 0, 0)
    {
      state, userSamples, counter, mixed := domain, 0, 0, [];
    }

    method Mix(data: bytes)
      requires Valid()
      modifies this`state, this`mixed
      ensures Valid() && mixed == old(mixed) + [data] && state == Mixed(h, old(state), data)
    {
      FoldSnoc(h, domain, mixed, data);
      mixed := mixed + [data];
      if data == [] {
        return;
      }
      var next := h(state, data);
      if next == None {
        return;
      }
      state := next.value;
    }

    method MixUserEvent(x: int, y: int, extra: nat, nanos: nat, cycles: nat)
      requires Valid()
      modifies this
      ensures Valid() && userSamples == old(userSamples) + 1
      ensures counter == (old(counter) + 1) % 0x1_0000_0000_0000_0000
      ensures mixed == old(mixed) + [UserSample(x, y, extra, nanos, cycles, counter)]
      ensures Now() == After(h, domain, old(Now()), User(x, y, extra, nanos, cycles))
    {
      hide UserSample;
      counter := (counter + 1) % 0x1_0000_0000_0000_0000;
      Mix(UserSample(x, y, extra, nanos, cycles, counter));
      userSamples := userSamples + 1;
    }

    method DrawCpu(s: Sources) returns (seed: seq<word>, rand: seq<word>)
      ensures seed == SeedWords(s) && rand == RandWords(s)
    {
      hide Draw;
      var words := new word[CPU_WORDS](_ => 0);
      var seedGot, randGot := 0, 0;
      if s.hasRdseed {
        seedGot := DrawCpuWords(s.rdseed, CPU_WORDS, words, 0);
      }
      seed := words[..seedGot];
      if s.hasRdrand && seedGot < CPU_WORDS {
        randGot := DrawCpuWords(s.rdrand, CPU_WORDS - seedGot, words, seedGot);
      }
      assert words[..seedGot] == seed;
      rand := words[seedGot..seedGot + randGot];
    }

    /** Everything drawn is folded in, counted or not. */
    method Gather(s: Sources) returns (r: Report)
      requires Valid()
      modifies this`state, this`mixed
      ensures Valid() && r == ReportOf(s, userSamples)
      ensures mixed == old(mixed) + Samples(s) && state == Fold(h, old(state), Samples(s))
    {
      hide LooksSane, Draw, WordsBytes, Fold, Mixed, SeedWords, RandWords, Counted, Rejected;
      r := Report(false, false, 0, 0, 0, userSamples);
      if !s.kernel.Unavailable? {
        r := r.(kernelOk := true, kernelWasReady := s.kernel.Seeded?);
        Mix(s.kernel.block);
      }
      var seed, rand := DrawCpu(s);
      Mix(WordsBytes(seed + rand));
      r := Credited(r, seed, rand);
      Mix(s.jitter);
      Mix(s.misc);
      assert mixed == old(mixed) + ((if s.kernel.Unavailable? then [] else [s.kernel.block])
                                    + [WordsBytes(seed + rand), s.jitter, s.misc]);
      FoldConcatenation(h, domain, old(mixed), Samples(s));
    }

    /** Refuses unless a source that counts contributed. */
    method Finalise(s: Sources, n: nat) returns (output: Option<bytes>, report: Option<Report>)
      requires Valid()
      modifies this`state, this`mixed
      ensures Valid() && Finalisation(Now(), output, report) == Finalised(h, old(Now()), s, n)
      ensures 0 < n <= HASH_LEN ==> old(mixed) + Samples(s) <= mixed
      ensures Now() == After(h, domain, old(Now()), Make(s, n))
    {
      hide ReportOf, Samples, Fold, Mixed, PolicySatisfied;
      if n == 0 || n > HASH_LEN {
        return None, None;
      }
      var r := Gather(s);
      report := Some(r);
      if !PolicySatisfied(r) {
        return None, report;
      }
      var okm := h(state, LABEL);
      if okm == None {
        return None, report;
      }
      output := Some(okm.value[..n]);
      Mix(okm.value);
    }

    static method Credited(r: Report, seed: seq<word>, rand: seq<word>) returns (c: Report)
      requires r.rdseedWords == r.rdrandWords == r.cpuRejected == 0
      ensures c == r.(rdseedWords := Counted(seed), rdrandWords := Counted(rand),
                      cpuRejected := Rejected(seed) + Rejected(rand))
    {
      hide LooksSane;
      c := r;
      var sane := CpuWordsLookSane(seed);
      if sane {
        c := c.(rdseedWords := |seed|);
      } else {
        c := c.(cpuRejected := c.cpuRejected + |seed|);
      }
      sane := CpuWordsLookSane(rand);
      if sane {
        c := c.(rdrandWords := |rand|);
      } else {
        c := c.(cpuRejected := c.cpuRejected + |rand|);
      }
    }
  }
}
