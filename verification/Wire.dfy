// The transaction and PSBT wire format: the writer, the reader, and the law
// that the reader undoes the writer.
module Wire {
  import opened Wrappers
  import opened Sequences
  import opened Bytes

  type u32 = n: nat | n < 0x1_0000_0000
  type u64 = n: nat | n < 0x1_0000_0000_0000_0000
  type txid = s: bytes | |s| == 32 witness seq(32, _ => 0)

  const MAX64 := 0x1_0000_0000_0000_0000

  // --- writer ------------------------------------------------------------------

  function VarInt(n: u64): bytes {
    if n < 0xfd then [n]
    else if n <= 0xffff then [0xfd] + LittleEndian(n, 2)
    else if n <= 0xffff_ffff then [0xfe] + LittleEndian(n, 4)
    else [0xff] + LittleEndian(n, 8)
  }

  function VarBytes(b: bytes): bytes
    requires |b| < MAX64
  {
    VarInt(|b|) + b
  }

  datatype TxIn = TxIn(prev: txid, vout: u32, sequence: u32)
  datatype TxOut = TxOut(value: u64, script: bytes)
  datatype Tx = Tx(version: u32, vin: seq<TxIn>, vout: seq<TxOut>, locktime: u32)

  ghost predicate OutFits(o: TxOut) {
    |o.script| < MAX64
  }

  /** Lengths are written as 64-bit numbers at most. */
  ghost predicate TxFits(tx: Tx) {
    |tx.vin| < MAX64 && |tx.vout| < MAX64 && forall o | o in tx.vout :: OutFits(o)
  }

  function InBytes(i: TxIn): bytes {
    i.prev + LittleEndian(i.vout, 4) + VarBytes([]) + LittleEndian(i.sequence, 4)
  }

  function OutBytes(o: TxOut): bytes
    requires OutFits(o)
  {
    LittleEndian(o.value, 8) + VarBytes(o.script)
  }

  function InsBytes(s: seq<TxIn>): bytes {
    if s == [] then [] else InBytes(s[0]) + InsBytes(s[1..])
  }

  function OutsBytes(s: seq<TxOut>): bytes
    requires forall o | o in s :: OutFits(o)
  {
    if s == [] then [] else OutBytes(s[0]) + OutsBytes(s[1..])
  }

  function TxBytes(tx: Tx): bytes
    requires TxFits(tx)
  {
    LittleEndian(tx.version, 4)
    + VarInt(|tx.vin|) + InsBytes(tx.vin)
    + VarInt(|tx.vout|) + OutsBytes(tx.vout)
    + LittleEndian(tx.locktime, 4)
  }

  // --- reader, on the bytes not yet read -------------------------------------------
  //
  // None is the ValueError of a truncated or malformed input.

  type Read<T> = Option<(T, bytes)>

  function Take(d: bytes, n: nat): Read<bytes> {
    if n > |d| then None else Some((d[..n], d[n..]))
  }

  function ReadLittleEndian(d: bytes, k: nat): (r: Read<nat>) {
    var (b, d1) :- Take(d, k);
    Some((FromLittleEndian(b), d1))
  }

  function ReadVarInt(d: bytes): Read<nat> {
    var (b, d1) :- Take(d, 1);
    if b[0] < 0xfd then Some((b[0], d1))
    else if b[0] == 0xfd then ReadLittleEndian(d1, 2)
    else if b[0] == 0xfe then ReadLittleEndian(d1, 4)
    else ReadLittleEndian(d1, 8)
  }

  function ReadVarBytes(d: bytes): Read<bytes> {
    var (n, d1) :- ReadVarInt(d);
    Take(d1, n)
  }

  function ReadU32(d: bytes): (r: Read<u32>)
  {
    var (b, d1) :- Take(d, 4);
    LittleEndianBound(b);
    Powers256();
    Some((FromLittleEndian(b), d1))
  }

  function ReadU64(d: bytes): (r: Read<u64>)
  {
    var (b, d1) :- Take(d, 8);
    LittleEndianBound(b);
    Powers256();
    Some((FromLittleEndian(b), d1))
  }

  // A script signature is read and dropped.
  function ReadIn(d: bytes): Read<TxIn> {
    var (prev, d1) :- Take(d, 32);
    var (vout, d2) :- ReadU32(d1);
    var (_, d3) :- ReadVarBytes(d2);
    var (sequence, d4) :- ReadU32(d3);
    Some((TxIn(prev, vout, sequence), d4))
  }

  function ReadOut(d: bytes): Read<TxOut> {
    var (value, d1) :- ReadU64(d);
    var (script, d2) :- ReadVarBytes(d1);
    Some((TxOut(value, script), d2))
  }

  function ReadIns(d: bytes, n: nat): Read<seq<TxIn>> {
    if n == 0 then Some(([], d))
    else
      var (x, d1) :- ReadIn(d);
      var (xs, d2) :- ReadIns(d1, n - 1);
      Some(([x] + xs, d2))
  }

  function ReadOuts(d: bytes, n: nat): Read<seq<TxOut>> {
    if n == 0 then Some(([], d))
    else
      var (x, d1) :- ReadOut(d);
      var (xs, d2) :- ReadOuts(d1, n - 1);
      Some(([x] + xs, d2))
  }

  /** What parse_tx makes of raw bytes; trailing bytes are not looked at. */
  function ParseTx(raw: bytes): Option<Tx> {
    var (version, d1) :- ReadU32(raw);
    var (n, d2) :- ReadVarInt(d1);
    var (vin, d3) :- ReadIns(d2, n);
    var (m, d4) :- ReadVarInt(d3);
    var (vout, d5) :- ReadOuts(d4, m);
    var (locktime, _) :- ReadU32(d5);
    Some(Tx(version, vin, vout, locktime))
  }

  // The counting pass skips what the parser keeps.
  function SkipIn(d: bytes): Option<bytes> {
    var (_, d1) :- Take(d, 36);
    var (_, d2) :- ReadVarBytes(d1);
    var (_, d3) :- Take(d2, 4);
    Some(d3)
  }

  function SkipIns(d: bytes, n: nat): Option<bytes> {
    if n == 0 then Some(d)
    else
      var d1 :- SkipIn(d);
      SkipIns(d1, n - 1)
  }

  function SkipOut(d: bytes): Option<bytes> {
    var (_, d1) :- Take(d, 8);
    var (_, d2) :- ReadVarBytes(d1);
    Some(d2)
  }

  function SkipOuts(d: bytes, n: nat): Option<bytes> {
    if n == 0 then Some(d)
    else
      var d1 :- SkipOut(d);
      SkipOuts(d1, n - 1)
  }

  function CountTxIo(raw: bytes): Option<(nat, nat)> {
    var (_, d1) :- Take(raw, 4);
    var (n, d2) :- ReadVarInt(d1);
    var d3 :- SkipIns(d2, n);
    var (m, d4) :- ReadVarInt(d3);
    var _ :- SkipOuts(d4, m);
    Some((n, m))
  }

  // --- the round trip ---------------------------------------------------------------

  lemma TakeOfConcatenation(b: bytes, rest: bytes)
    ensures Take(b + rest, |b|) == Some((b, rest))
  {
  }

  lemma LittleEndianRead(n: nat, k: nat, rest: bytes)
    requires n < Pow(256, k)
    ensures ReadLittleEndian(LittleEndian(n, k) + rest, k) == Some((n, rest))
  {
    TakeOfConcatenation(LittleEndian(n, k), rest);
    LittleEndianRoundTrip(n, k);
  }

  lemma U32Read(n: u32, rest: bytes)
    ensures ReadU32(LittleEndian(n, 4) + rest) == Some((n, rest))
  {
    TakeOfConcatenation(LittleEndian(n, 4), rest);
    Powers256();
    LittleEndianRoundTrip(n, 4);
  }

  lemma U64Read(n: u64, rest: bytes)
    ensures ReadU64(LittleEndian(n, 8) + rest) == Some((n, rest))
  {
    TakeOfConcatenation(LittleEndian(n, 8), rest);
    Powers256();
    LittleEndianRoundTrip(n, 8);
  }

  lemma VarIntTagged(tag: byte, k: nat, n: nat, rest: bytes)
    requires n < Pow(256, k)
    requires (tag == 0xfd && k == 2) || (tag == 0xfe && k == 4) || (tag == 0xff && k == 8)
    ensures ReadVarInt([tag] + LittleEndian(n, k) + rest) == Some((n, rest))
  {
    hide LittleEndian, FromLittleEndian;
    assert [tag] + LittleEndian(n, k) + rest == [tag] + (LittleEndian(n, k) + rest);
    TakeOfConcatenation([tag], LittleEndian(n, k) + rest);
    LittleEndianRead(n, k, rest);
  }

  /** Every 64-bit count reads back, whatever follows it. */
  lemma VarIntRead(n: u64, rest: bytes)
    ensures ReadVarInt(VarInt(n) + rest) == Some((n, rest))
  {
    hide LittleEndian, FromLittleEndian;
    Powers256();
    if n < 0xfd {
      TakeOfConcatenation([n], rest);
    } else if n <= 0xffff {
      VarIntTagged(0xfd, 2, n, rest);
    } else if n <= 0xffff_ffff {
      VarIntTagged(0xfe, 4, n, rest);
    } else {
      VarIntTagged(0xff, 8, n, rest);
    }
  }

  lemma VarBytesRead(b: bytes, rest: bytes)
    requires |b| < MAX64
    ensures ReadVarBytes(VarBytes(b) + rest) == Some((b, rest))
  {
    hide VarInt, ReadVarInt;
    assert VarBytes(b) + rest == VarInt(|b|) + (b + rest);
    VarIntRead(|b|, b + rest);
    TakeOfConcatenation(b, rest);
  }

  lemma InRead(i: TxIn, rest: bytes)
    ensures ReadIn(InBytes(i) + rest) == Some((i, rest))
  {
    hide VarBytes, ReadVarBytes, LittleEndian, ReadU32, Take;
    var d3 := LittleEndian(i.sequence, 4) + rest;
    var d2 := VarBytes([]) + d3;
    var d1 := LittleEndian(i.vout, 4) + d2;
    assert InBytes(i) + rest == i.prev + d1;
    TakeOfConcatenation(i.prev, d1);
    U32Read(i.vout, d2);
    VarBytesRead([], d3);
    U32Read(i.sequence, rest);
  }

  lemma OutRead(o: TxOut, rest: bytes)
    requires OutFits(o)
    ensures ReadOut(OutBytes(o) + rest) == Some((o, rest))
  {
    hide VarBytes, ReadVarBytes, LittleEndian, ReadU64;
    var d1 := VarBytes(o.script) + rest;
    assert OutBytes(o) + rest == LittleEndian(o.value, 8) + d1;
    U64Read(o.value, d1);
    VarBytesRead(o.script, rest);
  }

  lemma {:induction false} InsRead(s: seq<TxIn>, rest: bytes)
    ensures ReadIns(InsBytes(s) + rest, |s|) == Some((s, rest))
    decreases |s|
  {
    hide InBytes, ReadIn;
    if s == [] {
      assert InsBytes(s) + rest == rest;
    } else {
      var x, xs := SplitFirst(s);
      InsRead(xs, rest);
      assert InsBytes(s) + rest == InBytes(x) + (InsBytes(xs) + rest);
      InRead(x, InsBytes(xs) + rest);
    }
  }

  lemma {:induction false} OutsRead(s: seq<TxOut>, rest: bytes)
    requires forall o | o in s :: OutFits(o)
    ensures ReadOuts(OutsBytes(s) + rest, |s|) == Some((s, rest))
    decreases |s|
  {
    hide OutBytes, ReadOut;
    if s == [] {
      assert OutsBytes(s) + rest == rest;
    } else {
      var x, xs := SplitFirst(s);
      OutsRead(xs, rest);
      assert OutsBytes(s) + rest == OutBytes(x) + (OutsBytes(xs) + rest);
      OutRead(x, OutsBytes(xs) + rest);
    }
  }

  /** A written transaction reads back as itself. */
  lemma TxRoundTrip(tx: Tx)
    requires TxFits(tx)
    ensures ParseTx(TxBytes(tx)) == Some(tx)
  {
    hide LittleEndian, ReadU32, ReadVarInt, VarInt, InsBytes, OutsBytes, ReadIns, ReadOuts;
    var d5 := LittleEndian(tx.locktime, 4);
    var d4 := OutsBytes(tx.vout) + d5;
    var d3 := VarInt(|tx.vout|) + d4;
    var d2 := InsBytes(tx.vin) + d3;
    var d1 := VarInt(|tx.vin|) + d2;
    assert TxBytes(tx) == LittleEndian(tx.version, 4) + d1;
    U32Read(tx.version, d1);
    VarIntRead(|tx.vin|, d2);
    InsRead(tx.vin, d3);
    VarIntRead(|tx.vout|, d4);
    OutsRead(tx.vout, d5);
    assert d5 == d5 + [];
    U32Read(tx.locktime, []);
  }

  // --- the counting pass agrees with the parser ---------------------------------------

  lemma TakeMore(d: bytes, n: nat, m: nat)
    ensures match Take(d, n + m)
            case None => Take(d, n) == None || Take(Take(d, n).value.1, m) == None
            case Some((b, rest)) => Take(d, n) == Some((d[..n], d[n..])) && Take(d[n..], m) == Some((d[n..n + m], rest))
  {
    if n + m <= |d| {
      assert d[n..][..m] == d[n..n + m] && d[n..][m..] == d[n + m..];
    }
  }

  lemma SkipInAgrees(d: bytes)
    ensures SkipIn(d) == match ReadIn(d) case None => None case Some((_, rest)) => Some(rest)
  {
    hide ReadVarBytes;
    TakeMore(d, 32, 4);
  }

  lemma {:induction false} SkipInsAgrees(d: bytes, n: nat)
    ensures SkipIns(d, n) == match ReadIns(d, n) case None => None case Some((_, rest)) => Some(rest)
    ensures ReadIns(d, n).Some? ==> |ReadIns(d, n).value.0| == n
    decreases n
  {
    hide ReadIn, SkipIn;
    if n > 0 {
      SkipInAgrees(d);
      if ReadIn(d).Some? {
        SkipInsAgrees(ReadIn(d).value.1, n - 1);
      }
    }
  }

  lemma {:induction false} SkipOutsAgrees(d: bytes, n: nat)
    ensures SkipOuts(d, n) == match ReadOuts(d, n) case None => None case Some((_, rest)) => Some(rest)
    ensures ReadOuts(d, n).Some? ==> |ReadOuts(d, n).value.0| == n
    decreases n
  {
    hide ReadVarBytes;
    if n > 0 && ReadOut(d).Some? {
      SkipOutsAgrees(ReadOut(d).value.1, n - 1);
    }
  }

  /** On any bytes at all, the two passes count the same inputs and outputs;
      the parser fails beyond that only for want of the lock time. */
  lemma CountAgrees(raw: bytes)
    ensures ParseTx(raw).Some? ==>
              CountTxIo(raw) == Some((|ParseTx(raw).value.vin|, |ParseTx(raw).value.vout|))
    ensures CountTxIo(raw) == None ==> ParseTx(raw) == None
  {
    hide ReadVarInt, ReadIns, ReadOuts, SkipIns, SkipOuts;
    if ReadU32(raw).Some? {
      var d1 := ReadU32(raw).value.1;
      if ReadVarInt(d1).Some? {
        var (n, d2) := ReadVarInt(d1).value;
        SkipInsAgrees(d2, n);
        if ReadIns(d2, n).Some? {
          var d3 := ReadIns(d2, n).value.1;
          if ReadVarInt(d3).Some? {
            var (m, d4) := ReadVarInt(d3).value;
            SkipOutsAgrees(d4, m);
          }
        }
      }
    }
  }
}
