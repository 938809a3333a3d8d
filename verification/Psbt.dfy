// Partially signed transactions: the key-value maps of BIP174, written and read.
module PsbtWire {
  import opened Wrappers
  import opened Sequences
  import opened Bytes
  import opened Wire

  type fields = map<bytes, bytes>

  const MAGIC: bytes := [0x70, 0x73, 0x62, 0x74, 0xff]

  const GLOBAL_UNSIGNED_TX: byte := 0x00
  const IN_WITNESS_UTXO: byte := 0x01
  const IN_SIGHASH_TYPE: byte := 0x03
  const IN_BIP32_DERIVATION: byte := 0x06
  const OUT_BIP32_DERIVATION: byte := 0x02

  /** The key that owns an input or an output: a path from a master key. */
  datatype Origin = Origin(pubkey: bytes, fingerprint: bytes, path: seq<u32>)
  datatype InMeta = InMeta(utxo: TxOut, origin: Origin)
  /** An output with an empty public key carries no derivation. */
  datatype OutMeta = OutMeta(origin: Origin)

  // --- writer --------------------------------------------------------------------

  /** One key-value pair of a map, and the pairs of a whole map. */
  datatype Pair = Pair(key: bytes, value: bytes)

  ghost predicate PairFits(p: Pair) {
    p.key != [] && |p.key| < MAX64 && |p.value| < MAX64
  }

  ghost predicate PairsFit(s: seq<Pair>) {
    forall p | p in s :: PairFits(p)
  }

  function PairBytes(p: Pair): bytes
    requires PairFits(p)
  {
    VarBytes(p.key) + VarBytes(p.value)
  }

  function PairsBytes(s: seq<Pair>): bytes
    requires PairsFit(s)
  {
    if s == [] then [] else PairBytes(s[0]) + PairsBytes(s[1..])
  }

  /** A map is its pairs closed by a zero-length key. */
  function MapBytes(s: seq<Pair>): bytes
    requires PairsFit(s)
  {
    PairsBytes(s) + [0x00]
  }

  function PathBytes(path: seq<u32>): bytes {
    if path == [] then [] else LittleEndian(path[0], 4) + PathBytes(path[1..])
  }

  function KeyPathValue(o: Origin): bytes {
    o.fingerprint + PathBytes(o.path)
  }

  ghost predicate OriginFits(o: Origin) {
    |o.pubkey| + 1 < MAX64 && |KeyPathValue(o)| < MAX64
  }

  ghost predicate InFits(m: InMeta) {
    OutFits(m.utxo) && |OutBytes(m.utxo)| < MAX64 && OriginFits(m.origin)
  }

  function GlobalPairs(tx: Tx): (s: seq<Pair>)
    requires TxFits(tx) && |TxBytes(tx)| < MAX64
    ensures PairsFit(s)
  {
    [Pair([GLOBAL_UNSIGNED_TX], TxBytes(tx))]
  }

  function InPairs(m: InMeta): (s: seq<Pair>)
    requires InFits(m)
    ensures PairsFit(s)
  {
    [Pair([IN_WITNESS_UTXO], OutBytes(m.utxo)),
     Pair([IN_SIGHASH_TYPE], LittleEndian(1, 4)),
     Pair([IN_BIP32_DERIVATION] + m.origin.pubkey, KeyPathValue(m.origin))]
  }

  function OutPairs(m: OutMeta): (s: seq<Pair>)
    requires OriginFits(m.origin)
    ensures PairsFit(s)
  {
    if m.origin.pubkey == [] then []
    else [Pair([OUT_BIP32_DERIVATION] + m.origin.pubkey, KeyPathValue(m.origin))]
  }

  ghost predicate PsbtFits(tx: Tx, ins: seq<InMeta>, outs: seq<OutMeta>) {
    && TxFits(tx) && |TxBytes(tx)| < MAX64
    && (forall m | m in ins :: InFits(m))
    && (forall m | m in outs :: OriginFits(m.origin))
  }

  function MapsBytes(maps: seq<seq<Pair>>): bytes
    requires forall s | s in maps :: PairsFit(s)
  {
    if maps == [] then [] else MapBytes(maps[0]) + MapsBytes(maps[1..])
  }

  function InMaps(ins: seq<InMeta>): (maps: seq<seq<Pair>>)
    requires forall m | m in ins :: InFits(m)
    ensures |maps| == |ins|
    ensures forall s | s in maps :: PairsFit(s)
  {
    seq(|ins|, i requires 0 <= i < |ins| => InPairs(ins[i]))
  }

  function OutMaps(outs: seq<OutMeta>): (maps: seq<seq<Pair>>)
    requires forall m | m in outs :: OriginFits(m.origin)
    ensures |maps| == |outs|
    ensures forall s | s in maps :: PairsFit(s)
  {
    seq(|outs|, i requires 0 <= i < |outs| => OutPairs(outs[i]))
  }

  function BuildPsbt(tx: Tx, ins: seq<InMeta>, outs: seq<OutMeta>): bytes
    requires PsbtFits(tx, ins, outs)
  {
    MAGIC + MapBytes(GlobalPairs(tx)) + MapsBytes(InMaps(ins)) + MapsBytes(OutMaps(outs))
  }

  // --- reader --------------------------------------------------------------------

  /** The map the pairs build up; a repeated key keeps its last value. */
  function FieldsOf(m: fields, s: seq<Pair>): fields
    decreases |s|
  {
    if s == [] then m else FieldsOf(m[s[0].key := s[0].value], s[1..])
  }

  lemma ReadShortens(d: bytes)
    ensures ReadVarInt(d).Some? ==> |ReadVarInt(d).value.1| < |d|
    ensures ReadVarBytes(d).Some? ==> |ReadVarBytes(d).value.1| < |d|
  {
  }

  function ReadMap(d: bytes, m: fields): Read<fields>
    decreases |d|
  {
    ReadShortens(d);
    var (klen, d1) :- ReadVarInt(d);
    if klen == 0 then Some((m, d1))
    else
      var (key, d2) :- Take(d1, klen);
      ReadShortens(d2);
      var (value, d3) :- ReadVarBytes(d2);
      ReadMap(d3, m[key := value])
  }

  function ReadMaps(d: bytes, n: nat): Read<seq<fields>>
    decreases n
  {
    if n == 0 then Some(([], d))
    else
      var (m, d1) :- ReadMap(d, map[]);
      var (ms, d2) :- ReadMaps(d1, n - 1);
      Some(([m] + ms, d2))
  }

  datatype Psbt = Psbt(globals: fields, ins: seq<fields>, outs: seq<fields>, unsigned: bytes)

  function ParseBody(d: bytes): Option<Psbt> {
    var (globals, d1) :- ReadMap(d, map[]);
    if [GLOBAL_UNSIGNED_TX] !in globals then None
    else
      var unsigned := globals[[GLOBAL_UNSIGNED_TX]];
      var (n, m) :- CountTxIo(unsigned);
      var (ins, d2) :- ReadMaps(d1, n);
      var (outs, _) :- ReadMaps(d2, m);
      Some(Psbt(globals, ins, outs, unsigned))
  }

  predicate HasMagic(d: bytes) {
    MAGIC <= d
  }

  /** parse_psbt: the bytes themselves, or what they decode to as base64 text. */
  function ParsePsbt(data: bytes, fromBase64: bytes -> Option<bytes>): Option<Psbt> {
    if HasMagic(data) then ParseBody(data[5..])
    else
      var decoded :- fromBase64(data);
      if HasMagic(decoded) then ParseBody(decoded[5..]) else None
  }

  // --- the round trip ------------------------------------------------------------

  lemma MapEnds(m: fields, rest: bytes)
    ensures ReadMap([0x00] + rest, m) == Some((m, rest))
  {
    hide ReadVarInt;
    assert [0x00] + rest == VarInt(0) + rest;
    VarIntRead(0, rest);
  }

  lemma PairRead(p: Pair, m: fields, d: bytes)
    requires PairFits(p)
    ensures ReadMap(PairBytes(p) + d, m) == ReadMap(d, m[p.key := p.value])
  {
    var d2 := VarBytes(p.value) + d;
    assert PairBytes(p) + d == VarInt(|p.key|) + (p.key + d2);
    hide VarInt, ReadVarInt, VarBytes, ReadVarBytes, Take, PairBytes;
    VarIntRead(|p.key|, p.key + d2);
    TakeOfConcatenation(p.key, d2);
    VarBytesRead(p.value, d);
  }

  lemma {:induction false} MapRead(s: seq<Pair>, m: fields, rest: bytes)
    requires PairsFit(s)
    ensures ReadMap(MapBytes(s) + rest, m) == Some((FieldsOf(m, s), rest))
    decreases |s|
  {
    hide ReadMap, PairBytes, PairFits;
    if s == [] {
      assert MapBytes(s) + rest == [0x00] + rest;
      MapEnds(m, rest);
    } else {
      var p, tail := SplitFirst(s);
      assert PairsFit(tail) && PairFits(p);
      assert MapBytes(s) + rest == PairBytes(p) + (MapBytes(tail) + rest);
      PairRead(p, m, MapBytes(tail) + rest);
      MapRead(tail, m[p.key := p.value], rest);
    }
  }

  function AllFields(maps: seq<seq<Pair>>): (f: seq<fields>)
    ensures |f| == |maps|
  {
    seq(|maps|, i requires 0 <= i < |maps| => FieldsOf(map[], maps[i]))
  }

  lemma {:induction false} MapsRead(maps: seq<seq<Pair>>, rest: bytes)
    requires forall s | s in maps :: PairsFit(s)
    ensures ReadMaps(MapsBytes(maps) + rest, |maps|) == Some((AllFields(maps), rest))
    decreases |maps|
  {
    hide MapBytes, ReadMap, FieldsOf;
    if maps == [] {
      assert MapsBytes(maps) + rest == rest;
    } else {
      var s, tail := SplitFirst(maps);
      var d1 := MapsBytes(tail) + rest;
      assert MapsBytes(maps) + rest == MapBytes(s) + d1;
      MapRead(s, map[], d1);
      MapsRead(tail, rest);
      assert AllFields(maps) == [FieldsOf(map[], s)] + AllFields(tail);
    }
  }

  /** What BIP174 calls the maps of the fixture: each key once. */
  function InFields(m: InMeta): fields
    requires InFits(m)
  {
    map[[IN_WITNESS_UTXO] := OutBytes(m.utxo),
        [IN_SIGHASH_TYPE] := LittleEndian(1, 4),
        [IN_BIP32_DERIVATION] + m.origin.pubkey := KeyPathValue(m.origin)]
  }

  function OutFields(m: OutMeta): fields {
    if m.origin.pubkey == [] then map[]
    else map[[OUT_BIP32_DERIVATION] + m.origin.pubkey := KeyPathValue(m.origin)]
  }

  lemma FieldsOfCons(m: fields, p: Pair, s: seq<Pair>)
    ensures FieldsOf(m, [p] + s) == FieldsOf(m[p.key := p.value], s)
  {
    assert ([p] + s)[1..] == s;
  }

  lemma InPairsFields(m: InMeta)
    requires InFits(m)
    ensures FieldsOf(map[], InPairs(m)) == InFields(m)
  {
    hide OutBytes, KeyPathValue, LittleEndian, FieldsOf;
    var s := InPairs(m);
    assert s == [s[0]] + ([s[1]] + ([s[2]] + []));
    FieldsOfCons(map[], s[0], [s[1]] + ([s[2]] + []));
    FieldsOfCons(map[s[0].key := s[0].value], s[1], [s[2]] + []);
    FieldsOfCons(map[s[0].key := s[0].value][s[1].key := s[1].value], s[2], []);
    FieldsOfNone(map[s[0].key := s[0].value][s[1].key := s[1].value][s[2].key := s[2].value]);
  }

  lemma FieldsOfNone(m: fields)
    ensures FieldsOf(m, []) == m
  {
  }

  lemma OutPairsFields(m: OutMeta)
    requires OriginFits(m.origin)
    ensures FieldsOf(map[], OutPairs(m)) == OutFields(m)
  {
    hide KeyPathValue;
    if m.origin.pubkey != [] {
      assert OutPairs(m)[1..] == [];
    }
  }

  lemma GlobalFields(tx: Tx)
    requires TxFits(tx) && |TxBytes(tx)| < MAX64
    ensures FieldsOf(map[], GlobalPairs(tx)) == map[[GLOBAL_UNSIGNED_TX] := TxBytes(tx)]
  {
    hide TxBytes;
    assert GlobalPairs(tx)[1..] == [];
  }

  /** Any closed map reads back as its fields, whatever follows it, so a file
      of maps reads back as those maps. */
  lemma BodyRead(raw: bytes, g: seq<Pair>, ins: seq<seq<Pair>>, outs: seq<seq<Pair>>)
    requires PairsFit(g)
    requires (forall s | s in ins :: PairsFit(s)) && (forall s | s in outs :: PairsFit(s))
    requires [GLOBAL_UNSIGNED_TX] in FieldsOf(map[], g) && FieldsOf(map[], g)[[GLOBAL_UNSIGNED_TX]] == raw
    requires CountTxIo(raw) == Some((|ins|, |outs|))
    ensures ParseBody(MapBytes(g) + (MapsBytes(ins) + MapsBytes(outs)))
         == Some(Psbt(FieldsOf(map[], g), AllFields(ins), AllFields(outs), raw))
  {
    hide MapBytes, MapsBytes, ReadMap, ReadMaps, FieldsOf, AllFields, CountTxIo;
    var d2 := MapsBytes(outs);
    MapRead(g, map[], MapsBytes(ins) + d2);
    MapsRead(ins, d2);
    assert d2 == d2 + [];
    MapsRead(outs, []);
  }

  /** Reading what was written returns exactly what was written. */
  lemma PsbtRoundTrip(tx: Tx, ins: seq<InMeta>, outs: seq<OutMeta>, fromBase64: bytes -> Option<bytes>)
    requires PsbtFits(tx, ins, outs)
    requires |ins| == |tx.vin| && |outs| == |tx.vout|
    ensures var r := ParsePsbt(BuildPsbt(tx, ins, outs), fromBase64);
            && r.Some?
            && r.value.unsigned == TxBytes(tx)
            && r.value.globals == map[[GLOBAL_UNSIGNED_TX] := TxBytes(tx)]
            && |r.value.ins| == |ins| && (forall i | 0 <= i < |ins| :: r.value.ins[i] == InFields(ins[i]))
            && |r.value.outs| == |outs| && (forall i | 0 <= i < |outs| :: r.value.outs[i] == OutFields(outs[i]))
            && ParseTx(r.value.unsigned) == Some(tx)
            && CountTxIo(r.value.unsigned) == Some((|ins|, |outs|))
  {
    hide TxBytes, MapBytes, MapsBytes, ParseBody, ParseTx, CountTxIo, FieldsOf, GlobalPairs;
    hide InPairs, OutPairs, InFields, OutFields;
    TxRoundTrip(tx);
    CountAgrees(TxBytes(tx));
    GlobalFields(tx);
    var g, inMaps, outMaps := GlobalPairs(tx), InMaps(ins), OutMaps(outs);
    BodyRead(TxBytes(tx), g, inMaps, outMaps);
    Opens(MapBytes(g), MapsBytes(inMaps), MapsBytes(outMaps), BuildPsbt(tx, ins, outs));
    forall i | 0 <= i < |ins| ensures AllFields(inMaps)[i] == InFields(ins[i]) {
      InPairsFields(ins[i]);
    }
    forall i | 0 <= i < |outs| ensures AllFields(outMaps)[i] == OutFields(outs[i]) {
      OutPairsFields(outs[i]);
    }
  }

  lemma Opens(a: bytes, b: bytes, c: bytes, data: bytes)
    requires data == MAGIC + a + b + c
    ensures HasMagic(data) && data[5..] == a + (b + c)
  {
  }
}
