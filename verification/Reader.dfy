// The cursor the script reads with, and the three passes made with it, each
// proved to compute what the reader on remaining bytes describes.
module Readers {
  import opened Wrappers
  import opened Bytes
  import opened Wire
  import opened PsbtWire

  /** A pass either failed as described, or gave the value and left the rest. */
  predicate Agrees<T(==)>(result: Option<T>, rest: bytes, described: Read<T>) {
    match described
    case None => result == None
    case Some((value, left)) => result == Some(value) && rest == left
  }

  class Reader {
    const d: bytes
    var i: nat

    ghost predicate Valid()
      reads this
    {
      i <= |d|
    }

    ghost function Rest(): bytes
      requires Valid()
      reads this
    {
      d[i..]
    }

    constructor (data: bytes)
      ensures Valid() && d == data && Rest() == data
    {
      d, i := data, 0;
    }

    method Take(n: nat) returns (b: Option<bytes>)
      requires Valid()
      modifies this
      ensures Valid() && Agrees(b, Rest(), Wire.Take(old(Rest()), n))
      ensures b.Some? ==> i == old(i) + n
    {
      if i + n > |d| {
        return None;
      }
      assert d[i..][..n] == d[i..i + n] && d[i..][n..] == d[i + n..];
      b := Some(d[i..i + n]);
      i := i + n;
    }

    method Eof() returns (b: bool)
      requires Valid()
      ensures b <==> Rest() == []
    {
      b := i >= |d|;
    }

    method Unpack(k: nat) returns (n: Option<nat>)
      requires Valid()
      modifies this
      ensures Valid() && Agrees(n, Rest(), ReadLittleEndian(old(Rest()), k))
    {
      var b := Take(k);
      n := if b.Some? then Some(FromLittleEndian(b.value)) else None;
    }

    method VarInt() returns (n: Option<nat>)
      requires Valid()
      modifies this
      ensures Valid() && Agrees(n, Rest(), ReadVarInt(old(Rest())))
    {
      hide ReadLittleEndian;
      var first := Take(1);
      if first.None? {
        return None;
      }
      var b := first.value[0];
      if b < 0xfd {
        return Some(b);
      }
      n := Unpack(if b == 0xfd then 2 else if b == 0xfe then 4 else 8);
    }

    method VarBytes() returns (b: Option<bytes>)
      requires Valid()
      modifies this
      ensures Valid() && Agrees(b, Rest(), ReadVarBytes(old(Rest())))
    {
      hide ReadVarInt;
      var n := VarInt();
      if n.None? {
        return None;
      }
      b := Take(n.value);
    }

    method U32() returns (n: Option<u32>)
      requires Valid()
      modifies this
      ensures Valid() && Agrees(n, Rest(), ReadU32(old(Rest())))
    {
      var b := Take(4);
      if b.None? {
        return None;
      }
      LittleEndianBound(b.value);
      Powers256();
      n := Some(FromLittleEndian(b.value));
    }

    method U64() returns (n: Option<u64>)
      requires Valid()
      modifies this
      ensures Valid() && Agrees(n, Rest(), ReadU64(old(Rest())))
    {
      var b := Take(8);
      if b.None? {
        return None;
      }
      LittleEndianBound(b.value);
      Powers256();
      n := Some(FromLittleEndian(b.value));
    }

    method ReadFields() returns (m: Option<fields>)
      requires Valid()
      modifies this
      ensures Valid() && Agrees(m, Rest(), ReadMap(old(Rest()), map[]))
    {
      hide ReadVarInt, ReadVarBytes;
      var entries: fields := map[];
      while true
        invariant Valid() && ReadMap(Rest(), entries) == ReadMap(old(Rest()), map[])
        decreases |Rest()|
      {
        ghost var d := Rest();
        ReadShortens(d);
        var klen := VarInt();
        if klen.None? {
          return None;
        }
        if klen.value == 0 {
          return Some(entries);
        }
        var key := Take(klen.value);
        if key.None? {
          return None;
        }
        ReadShortens(Rest());
        var value := VarBytes();
        if value.None? {
          return None;
        }
        entries := entries[key.value := value.value];
      }
    }

    method ReadFieldMaps(n: nat) returns (ms: Option<seq<fields>>)
      requires Valid()
      modifies this
      ensures Valid() && Agrees(ms, Rest(), ReadMaps(old(Rest()), n))
    {
      hide ReadMap;
      var done: seq<fields> := [];
      for k := 0 to n
        invariant Valid()
        invariant ReadMaps(old(Rest()), n) == After(done, ReadMaps(Rest(), n - k))
      {
        ghost var d := Rest();
        var m := ReadFields();
        if m.None? {
          return None;
        }
        AfterOneMore(done, m.value, ReadMaps(Rest(), n - k - 1));
        done := done + [m.value];
      }
      ms := Some(done);
    }
  }

  /** What a list read so far contributes to the whole list. */
  function After<T>(done: seq<T>, r: Read<seq<T>>): (a: Read<seq<T>>)
    ensures done == [] ==> a == r
    ensures r.Some? && r.value.0 == [] ==> a == Some((done, r.value.1))
  {
    match r
    case None => None
    case Some((s, rest)) =>
      assert [] + s == s && done + [] == done;
      Some((done + s, rest))
  }

  lemma AfterOneMore<T>(done: seq<T>, x: T, r: Read<seq<T>>)
    ensures After(done + [x], r) == After(done, After([x], r))
  {
    if r.Some? {
      assert done + [x] + r.value.0 == done + ([x] + r.value.0);
    }
  }

  method ParseTransaction(raw: bytes) returns (tx: Option<Tx>)
    ensures tx == ParseTx(raw)
  {
    hide Reader.Rest, Reader.Valid, ReadU32, ReadVarInt, ReadIns, ReadOuts;
    var r := new Reader(raw);
    var version := r.U32();
    if version.None? {
      return None;
    }
    var n := r.VarInt();
    if n.None? {
      return None;
    }
    var vin := ReadInputs(r, n.value);
    if vin.None? {
      return None;
    }
    var m := r.VarInt();
    if m.None? {
      return None;
    }
    var vout := ReadOutputs(r, m.value);
    if vout.None? {
      return None;
    }
    var locktime := r.U32();
    if locktime.None? {
      return None;
    }
    tx := Some(Tx(version.value, vin.value, vout.value, locktime.value));
  }

  method ReadInputs(r: Reader, n: nat) returns (vin: Option<seq<TxIn>>)
    requires r.Valid()
    modifies r
    ensures r.Valid() && Agrees(vin, r.Rest(), ReadIns(old(r.Rest()), n))
  {
    hide ReadU32, ReadVarBytes;
    var done: seq<TxIn> := [];
    for k := 0 to n
      invariant r.Valid()
      invariant ReadIns(old(r.Rest()), n) == After(done, ReadIns(r.Rest(), n - k))
    {
      var prev := r.Take(32);
      if prev.None? {
        return None;
      }
      var vout := r.U32();
      if vout.None? {
        return None;
      }
      var scriptSig := r.VarBytes();
      if scriptSig.None? {
        return None;
      }
      var sequence := r.U32();
      if sequence.None? {
        return None;
      }
      var x := TxIn(prev.value, vout.value, sequence.value);
      AfterOneMore(done, x, ReadIns(r.Rest(), n - k - 1));
      done := done + [x];
    }
    vin := Some(done);
  }

  method ReadOutputs(r: Reader, n: nat) returns (vout: Option<seq<TxOut>>)
    requires r.Valid()
    modifies r
    ensures r.Valid() && Agrees(vout, r.Rest(), ReadOuts(old(r.Rest()), n))
  {
    hide ReadU64, ReadVarBytes;
    var done: seq<TxOut> := [];
    for k := 0 to n
      invariant r.Valid()
      invariant ReadOuts(old(r.Rest()), n) == After(done, ReadOuts(r.Rest(), n - k))
    {
      var value := r.U64();
      if value.None? {
        return None;
      }
      var script := r.VarBytes();
      if script.None? {
        return None;
      }
      var x := TxOut(value.value, script.value);
      AfterOneMore(done, x, ReadOuts(r.Rest(), n - k - 1));
      done := done + [x];
    }
    vout := Some(done);
  }

  method SkipInputs(r: Reader, n: nat) returns (ok: bool)
    requires r.Valid()
    modifies r
    ensures r.Valid() && SkipIns(old(r.Rest()), n) == if ok then Some(r.Rest()) else None
  {
    hide ReadVarBytes;
    for k := 0 to n
      invariant r.Valid()
      invariant SkipIns(old(r.Rest()), n) == SkipIns(r.Rest(), n - k)
    {
      var outpoint := r.Take(36);
      if outpoint.None? {
        return false;
      }
      var scriptSig := r.VarBytes();
      if scriptSig.None? {
        return false;
      }
      var sequence := r.Take(4);
      if sequence.None? {
        return false;
      }
    }
    ok := true;
  }

  method SkipOutputs(r: Reader, n: nat) returns (ok: bool)
    requires r.Valid()
    modifies r
    ensures r.Valid() && SkipOuts(old(r.Rest()), n) == if ok then Some(r.Rest()) else None
  {
    hide ReadVarBytes;
    for k := 0 to n
      invariant r.Valid()
      invariant SkipOuts(old(r.Rest()), n) == SkipOuts(r.Rest(), n - k)
    {
      var value := r.Take(8);
      if value.None? {
        return false;
      }
      var script := r.VarBytes();
      if script.None? {
        return false;
      }
    }
    ok := true;
  }

  method CountInputsOutputs(raw: bytes) returns (counts: Option<(nat, nat)>)
    ensures counts == CountTxIo(raw)
  {
    hide Reader.Rest, Reader.Valid, Wire.Take, ReadVarInt, SkipIns, SkipOuts;
    var r := new Reader(raw);
    var version := r.Take(4);
    if version.None? {
      return None;
    }
    var n := r.VarInt();
    if n.None? {
      return None;
    }
    var ok := SkipInputs(r, n.value);
    if !ok {
      return None;
    }
    var m := r.VarInt();
    if m.None? {
      return None;
    }
    ok := SkipOutputs(r, m.value);
    if !ok {
      return None;
    }
    counts := Some((n.value, m.value));
  }

  method ParseFile(data: bytes, fromBase64: bytes -> Option<bytes>) returns (psbt: Option<Psbt>)
    ensures psbt == ParsePsbt(data, fromBase64)
  {
    hide Reader.Rest, Reader.Valid, ReadMap, ReadMaps, CountTxIo;
    var raw := data;
    if !HasMagic(raw) {
      var decoded := fromBase64(raw);
      if decoded.None? || !HasMagic(decoded.value) {
        return None;
      }
      raw := decoded.value;
    }
    var r := new Reader(raw);
    var magic := r.Take(5);
    var globals := r.ReadFields();
    if globals.None? || [GLOBAL_UNSIGNED_TX] !in globals.value {
      return None;
    }
    var unsigned := globals.value[[GLOBAL_UNSIGNED_TX]];
    var counts := CountInputsOutputs(unsigned);
    if counts.None? {
      return None;
    }
    var ins := r.ReadFieldMaps(counts.value.0);
    if ins.None? {
      return None;
    }
    var outs := r.ReadFieldMaps(counts.value.1);
    if outs.None? {
      return None;
    }
    psbt := Some(Psbt(globals.value, ins.value, outs.value, unsigned));
  }
}
