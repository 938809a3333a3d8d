// Who an output pays, as far as one wallet can prove it.
module Outputs {
  import opened Wrappers
  import opened Sequences
  import opened Bytes
  import opened Scripts

  type fingerprint = f: bytes | |f| == 4 witness [0, 0, 0, 0]

  /** One entry of a key path map: the master it names and the path below it. An
      entry may be unreadable, and its path missing. */
  datatype Keypath = Keypath(master: Option<fingerprint>, path: Option<seq<nat>>)

  datatype PsbtOutput = PsbtOutput(keypaths: seq<Keypath>, taprootPaths: seq<Keypath>,
                                   redeemScript: Option<bytes>, witnessScript: Option<bytes>, hasTree: bool)

  /** The wallet's side: its fingerprint, if that could be computed, and its
      public child keys. */
  datatype Wallet = Wallet(master: Option<fingerprint>, derive: seq<nat> -> Option<pubkey>)

  const MAX_PATH_ELEMENTS := 32

  /** The path of an entry; empty when there is none that can be used. */
  function Elements(e: Keypath): (p: seq<nat>) {
    if e.path.Some? && |e.path.value| <= MAX_PATH_ELEMENTS then e.path.value else []
  }

  predicate NamesUs(w: Wallet, e: Keypath) {
    e.master.Some? && e.master == w.master
  }

  /** The child key an entry that names us leads to. */
  function ChildKey(w: Wallet, e: Keypath): Option<pubkey> {
    if Elements(e) == [] then None else w.derive(Elements(e))
  }

  /** What the output is to a child key, with the scripts the file supplies for it. */
  ghost function OwnershipForChild(c: Hashes, child: pubkey, spk: bytes, o: PsbtOutput): (v: Ownership)
    ensures v in {Verified, Unverifiable, Mismatch}
  {
    OwnershipForScript(c, child, spk, Field(o.redeemScript), Field(o.witnessScript), o.hasTree)
  }

  /** The verdict of one entry; none when it names another master. */
  ghost function EntryVerdict(c: Hashes, w: Wallet, o: PsbtOutput, spk: bytes, e: Keypath): (v: Option<Ownership>)
    ensures v.Some? ==> v.value in {Verified, Unverifiable, Mismatch}
  {
    if !NamesUs(w, e) then None
    else if ChildKey(w, e) == None then Some(Unverifiable)
    else Some(OwnershipForChild(c, ChildKey(w, e).value, spk, o))
  }

  ghost predicate Has(c: Hashes, w: Wallet, o: PsbtOutput, spk: bytes, entries: seq<Keypath>, v: Ownership) {
    exists e :: e in entries && EntryVerdict(c, w, o, spk, e) == Some(v)
  }

  /** The label of an output: the strongest verdict among the entries, whatever
      their order. */
  ghost function Label(c: Hashes, w: Wallet, o: PsbtOutput, spk: bytes, entries: seq<Keypath>): Ownership {
    if Has(c, w, o, spk, entries, Verified) then Verified
    else if Has(c, w, o, spk, entries, Mismatch) then Mismatch
    else if Has(c, w, o, spk, entries, Unverifiable) then Unverifiable
    else ThirdParty
  }

  function Entries(o: PsbtOutput): seq<Keypath> {
    o.keypaths + o.taprootPaths
  }

  lemma LabelIgnoresOrder(c: Hashes, w: Wallet, o: PsbtOutput, spk: bytes, entries: seq<Keypath>, others: seq<Keypath>)
    requires forall e :: e in entries <==> e in others
    ensures Label(c, w, o, spk, entries) == Label(c, w, o, spk, others)
  {
    hide EntryVerdict;
  }

  // --- what the loop also records -----------------------------------------------------

  /** An entry that was followed to a key. */
  predicate Followed(w: Wallet, e: Keypath) {
    NamesUs(w, e) && ChildKey(w, e).Some?
  }

  predicate AnyFollowed(w: Wallet, entries: seq<Keypath>) {
    exists e :: e in entries && Followed(w, e)
  }

  /** The path shown: the first verified one, or else the first followed one. */
  ghost function FirstPath(c: Hashes, w: Wallet, o: PsbtOutput, spk: bytes, entries: seq<Keypath>): seq<nat> {
    if entries == [] then []
    else
      var e := entries[0];
      if EntryVerdict(c, w, o, spk, e) == Some(Verified) then Elements(e)
      else if Followed(w, e) && !Has(c, w, o, spk, entries, Verified) then Elements(e)
      else FirstPath(c, w, o, spk, entries[1..])
  }

  datatype Verdict = Verdict(ownership: Ownership, claimed: Option<fingerprint>, path: seq<nat>)

  /** What the judgement of an output leaves in its summary, given what the
      file alone had put there. */
  ghost function Judged(c: Hashes, w: Wallet, o: PsbtOutput, spk: bytes, before: Verdict): Verdict {
    var entries := Entries(o);
    var path := FirstPath(c, w, o, spk, entries);
    Verdict(Label(c, w, o, spk, entries),
            if AnyFollowed(w, entries) then w.master else before.claimed,
            if path != [] then path else before.path)
  }

  // --- one entry at a time ----------------------------------------------------------------

  /** The loop's variables. */
  datatype Notes = Notes(anyVerified: bool, anyMismatch: bool, anyUnverifiable: bool,
                         path: seq<nat>, claimed: Option<fingerprint>)

  /** What is known after the entries `seen`. */
  ghost predicate Tally(c: Hashes, w: Wallet, o: PsbtOutput, spk: bytes, seen: seq<Keypath>,
                        before: Verdict, n: Notes) {
    && n.anyVerified == Has(c, w, o, spk, seen, Verified)
    && n.anyMismatch == Has(c, w, o, spk, seen, Mismatch)
    && n.anyUnverifiable == Has(c, w, o, spk, seen, Unverifiable)
    && n.path == FirstPath(c, w, o, spk, seen)
    && n.claimed == if AnyFollowed(w, seen) then w.master else before.claimed
  }

  /** One more entry, as the loop takes it in. */
  ghost function Noted(c: Hashes, w: Wallet, o: PsbtOutput, spk: bytes, e: Keypath, n: Notes): Notes {
    match EntryVerdict(c, w, o, spk, e)
    case None => n
    case Some(v) =>
      if ChildKey(w, e) == None then n.(anyUnverifiable := true)
      else
        Notes(n.anyVerified || v == Verified, n.anyMismatch || v == Mismatch, n.anyUnverifiable || v == Unverifiable,
              if n.path == [] || v == Verified then Elements(e) else n.path, w.master)
  }

  lemma TallyNothing(c: Hashes, w: Wallet, o: PsbtOutput, spk: bytes, before: Verdict)
    ensures Tally(c, w, o, spk, [], before, Notes(false, false, false, [], before.claimed))
  {
  }

  lemma TallySnoc(c: Hashes, w: Wallet, o: PsbtOutput, spk: bytes, seen: seq<Keypath>, e: Keypath,
                  before: Verdict, n: Notes)
    requires Tally(c, w, o, spk, seen, before, n) && !n.anyVerified
    ensures Tally(c, w, o, spk, seen + [e], before, Noted(c, w, o, spk, e, n))
  {
    SomeSnoc(c, w, o, spk, seen, e, Verified);
    SomeSnoc(c, w, o, spk, seen, e, Mismatch);
    SomeSnoc(c, w, o, spk, seen, e, Unverifiable);
    AnyFollowedSnoc(w, seen, e);
    FirstPathSnoc(c, w, o, spk, seen, e);
    VerdictOf(c, w, o, spk, e);
    hide EntryVerdict, Has, FirstPath, AnyFollowed, ChildKey, Elements;
  }

  lemma VerdictOf(c: Hashes, w: Wallet, o: PsbtOutput, spk: bytes, e: Keypath)
    ensures EntryVerdict(c, w, o, spk, e).Some? <==> NamesUs(w, e)
    ensures NamesUs(w, e) && ChildKey(w, e) == None ==> EntryVerdict(c, w, o, spk, e) == Some(Unverifiable)
    ensures NamesUs(w, e) ==> e.master == w.master
    ensures NamesUs(w, e) && ChildKey(w, e).Some? ==>
      EntryVerdict(c, w, o, spk, e) == Some(OwnershipForChild(c, ChildKey(w, e).value, spk, o))
  {
    hide OwnershipForScript;
  }

  lemma SomeSnoc(c: Hashes, w: Wallet, o: PsbtOutput, spk: bytes, seen: seq<Keypath>, e: Keypath, v: Ownership)
    ensures Has(c, w, o, spk, seen + [e], v)
        <==> Has(c, w, o, spk, seen, v) || EntryVerdict(c, w, o, spk, e) == Some(v)
  {
    hide EntryVerdict;
    forall x ensures x in seen + [e] <==> x in seen || x == e {
    }
  }

  lemma AnyFollowedSnoc(w: Wallet, seen: seq<Keypath>, e: Keypath)
    ensures AnyFollowed(w, seen + [e]) <==> AnyFollowed(w, seen) || Followed(w, e)
  {
    hide Followed;
    forall x ensures x in seen + [e] <==> x in seen || x == e {
    }
  }

  /** Before the first verified entry the path is the first followed one; a
      verified entry replaces it. */
  lemma {:induction false} FirstPathSnoc(c: Hashes, w: Wallet, o: PsbtOutput, spk: bytes, seen: seq<Keypath>,
                                         e: Keypath)
    requires !Has(c, w, o, spk, seen, Verified)
    ensures FirstPath(c, w, o, spk, seen + [e]) ==
      if EntryVerdict(c, w, o, spk, e) == Some(Verified) then Elements(e)
      else if FirstPath(c, w, o, spk, seen) == [] && Followed(w, e) then Elements(e)
      else FirstPath(c, w, o, spk, seen)
    decreases |seen|
  {
    hide EntryVerdict, Followed, Elements;
    SomeSnoc(c, w, o, spk, seen, e, Verified);
    if seen == [] {
      assert [e][1..] == [];
      assert seen + [e] == [e];
    } else {
      var first, rest := SplitFirst(seen);
      assert (seen + [e])[0] == first && (seen + [e])[1..] == rest + [e];
      assert !Has(c, w, o, spk, rest, Verified) by {
        assert forall x :: x in rest ==> x in seen;
      }
      SomeSnoc(c, w, o, spk, rest, e, Verified);
      assert first in seen;
      FirstPathSnoc(c, w, o, spk, rest, e);
      FollowedPath(w, first);
    }
  }

  lemma FollowedPath(w: Wallet, e: Keypath)
    ensures Followed(w, e) ==> Elements(e) != []
  {
  }

  /** Entries behind a verified one change nothing. */
  lemma {:induction false} VerifiedSettles(c: Hashes, w: Wallet, o: PsbtOutput, spk: bytes, seen: seq<Keypath>,
                                           rest: seq<Keypath>)
    requires Has(c, w, o, spk, seen, Verified)
    ensures Has(c, w, o, spk, seen + rest, Verified)
    ensures FirstPath(c, w, o, spk, seen + rest) == FirstPath(c, w, o, spk, seen)
    ensures AnyFollowed(w, seen) && AnyFollowed(w, seen + rest)
    decreases |seen|
  {
    var e :| e in seen && EntryVerdict(c, w, o, spk, e) == Some(Verified);
    assert Followed(w, e) && e in seen + rest;
    hide EntryVerdict, Followed, Elements;
    var first, tail := SplitFirst(seen);
    assert (seen + rest)[0] == first && (seen + rest)[1..] == tail + rest;
    if EntryVerdict(c, w, o, spk, first) != Some(Verified) {
      assert e in tail;
      VerifiedSettles(c, w, o, spk, tail, rest);
    }
  }

  /** The entries skipped after a verified one do not matter. */
  lemma TallyAll(c: Hashes, w: Wallet, o: PsbtOutput, spk: bytes, seen: seq<Keypath>, skipped: seq<Keypath>,
                 before: Verdict, n: Notes)
    requires Tally(c, w, o, spk, seen, before, n) && (!n.anyVerified ==> skipped == [])
    requires seen + skipped == Entries(o)
    ensures Judged(c, w, o, spk, before) ==
      Verdict(if n.anyVerified then Verified else if n.anyMismatch then Mismatch
              else if n.anyUnverifiable then Unverifiable else ThirdParty,
              n.claimed, if n.path != [] then n.path else before.path)
  {
    hide EntryVerdict, Has, FirstPath, AnyFollowed;
    if n.anyVerified {
      VerifiedSettles(c, w, o, spk, seen, skipped);
    } else {
      assert seen + skipped == seen;
    }
  }

  // --- the loop over both maps -------------------------------------------------------------

  method JudgeOutput(c: Hashes, w: Wallet, o: PsbtOutput, spk: bytes, before: Verdict) returns (v: Verdict)
    ensures v == Judged(c, w, o, spk, before)
  {
    hide *;
    var n := Notes(false, false, false, [], before.claimed);
    TallyNothing(c, w, o, spk, before);
    ghost var seen: seq<Keypath>, skipped: seq<Keypath> := [], [];
    var maps := [o.keypaths, o.taprootPaths];
    for m := 0 to 2
      invariant Tally(c, w, o, spk, seen, before, n)
      invariant !n.anyVerified ==> skipped == []
      invariant seen + skipped == if m == 0 then [] else if m == 1 then maps[0] else maps[0] + maps[1]
    {
      ghost var used, rest;
      n, used, rest := JudgeMap(c, w, o, spk, maps[m], seen, before, n);
      assert seen + used + (skipped + rest) == seen + skipped + maps[m];
      seen, skipped := seen + used, skipped + rest;
    }
    EntriesOf(o);
    TallyAll(c, w, o, spk, seen, skipped, before, n);
    var ownership := if n.anyVerified then Verified
                     else if n.anyMismatch then Mismatch
                     else if n.anyUnverifiable then Unverifiable
                     else ThirdParty;
    v := Verdict(ownership, n.claimed, if n.path != [] then n.path else before.path);
  }

  /** The inner loop, over one map: it stops behind the first verified entry. */
  method JudgeMap(c: Hashes, w: Wallet, o: PsbtOutput, spk: bytes, kp: seq<Keypath>, ghost seen: seq<Keypath>,
                  ghost before: Verdict, n0: Notes)
    returns (n: Notes, ghost used: seq<Keypath>, ghost rest: seq<Keypath>)
    requires Tally(c, w, o, spk, seen, before, n0)
    ensures Tally(c, w, o, spk, seen + used, before, n) && used + rest == kp
    ensures n0.anyVerified ==> used == []
    ensures !n.anyVerified ==> !n0.anyVerified && rest == []
  {
    hide *;
    n := n0;
    var j := 0;
    assert seen + kp[..0] == seen;
    while j < |kp| && !n.anyVerified
      invariant j <= |kp| && (n0.anyVerified ==> j == 0 && n.anyVerified)
      invariant Tally(c, w, o, spk, seen + kp[..j], before, n)
    {
      TallySnoc(c, w, o, spk, seen + kp[..j], kp[j], before, n);
      assert seen + kp[..j + 1] == seen + kp[..j] + [kp[j]];
      n := JudgeEntry(c, w, o, spk, kp[j], n);
      j := j + 1;
    }
    used, rest := kp[..j], kp[j..];
  }

  lemma EntriesOf(o: PsbtOutput)
    ensures Entries(o) == o.keypaths + o.taprootPaths
  {
  }

  /** The body of the inner loop. */
  method JudgeEntry(c: Hashes, w: Wallet, o: PsbtOutput, spk: bytes, e: Keypath, before: Notes) returns (n: Notes)
    requires !before.anyVerified
    ensures n == Noted(c, w, o, spk, e, before)
  {
    n := before;
    VerdictOf(c, w, o, spk, e);
    if !NamesUs(w, e) {
      return;
    }
    var child := ChildKey(w, e);
    if child == None {
      n := n.(anyUnverifiable := true);
      return;
    }
    var verdict := JudgeScript(c, child.value, spk, Field(o.redeemScript), Field(o.witnessScript), o.hasTree);
    hide EntryVerdict, OwnershipForScript;
    match verdict {
      case Verified => n := n.(anyVerified := true);
      case Mismatch => n := n.(anyMismatch := true);
      case _ => n := n.(anyUnverifiable := true);
    }
    if n.path == [] || n.anyVerified {
      n := n.(path := Elements(e));
    }
    n := n.(claimed := e.master);
  }

  // --- what the label means ------------------------------------------------------------------

  /** A verified output really commits to a key of this wallet. */
  lemma VerifiedIsOurs(c: Hashes, w: Wallet, o: PsbtOutput, spk: bytes) returns (e: Keypath)
    requires Label(c, w, o, spk, Entries(o)) == Verified
    ensures e in Entries(o) && NamesUs(w, e) && ChildKey(w, e).Some?
    ensures CommitsTo(c, ChildKey(w, e).value, spk, Field(o.redeemScript), Field(o.witnessScript))
  {
    hide OwnershipForScript, CommitsTo;
    e :| e in Entries(o) && EntryVerdict(c, w, o, spk, e) == Some(Verified);
    VerifiedCommits(c, ChildKey(w, e).value, spk, Field(o.redeemScript), Field(o.witnessScript), o.hasTree);
  }

  /** An output is a payment to somebody else exactly when no entry names us. */
  lemma ThirdPartyExactly(c: Hashes, w: Wallet, o: PsbtOutput, spk: bytes)
    ensures Label(c, w, o, spk, Entries(o)) == ThirdParty <==> forall e :: e in Entries(o) ==> !NamesUs(w, e)
  {
    hide OwnershipForScript, Entries, ChildKey, NamesUs;
  }
}
