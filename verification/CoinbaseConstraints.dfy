/**
 The space reserved for coinbase outputs: size and signature-operation cost announced to the template
 provider (section 7.1 of the Stratum V2 specification), computed from the pool output alone plus a
 fixed offset, against what any payout mode may build.

 Signature operations are counted as in the Sigops section of BIP 141: the legacy count times four.
 */
module CoinbaseConstraints {
  import opened Bytes
  import opened Payout
  import opened CoinbaseTx

  const U32 := 0x1_0000_0000
  const U16 := 0x1_0000

  const OFFSET_ADDITIONAL_SIZE := 43
  const OFFSET_MAX_SIGOPS := 4

  const OP_CHECKSIG := 0xac
  const OP_CHECKSIGVERIFY := 0xad
  const OP_CHECKMULTISIG := 0xae
  const OP_CHECKMULTISIGVERIFY := 0xaf

  /** The script after a push of `n` bytes behind a header of `h`; a push past the end stops the count. */
  function SkipPush(s: Script, h: nat, n: nat): Script {
    if h + n <= |s| then s[h + n..] else []
  }

  function PushLength(s: Script, width: nat): nat {
    if 1 + width <= |s| then LeNat(s[1..1 + width]) else |s|
  }

  /** Legacy signature operations: pushed data is skipped, a multisig counts 20. */
  function SigOps(s: Script): nat
    decreases |s|
  {
    if s == [] then 0
    else
      var op := s[0];
      if 0x01 <= op <= 0x4b then SigOps(SkipPush(s, 1, op))
      else if op == 0x4c then SigOps(SkipPush(s, 2, PushLength(s, 1)))
      else if op == 0x4d then SigOps(SkipPush(s, 3, PushLength(s, 2)))
      else if op == 0x4e then SigOps(SkipPush(s, 5, PushLength(s, 4)))
      else if op == OP_CHECKSIG || op == OP_CHECKSIGVERIFY then 1 + SigOps(s[1..])
      else if op == OP_CHECKMULTISIG || op == OP_CHECKMULTISIGVERIFY then 20 + SigOps(s[1..])
      else SigOps(s[1..])
  }

  /** Serialized size of an output to this script. */
  function OutSize(script: Script): nat
    requires |script| < U64
  {
    8 + |VarInt(|script|)| + |script|
  }

  lemma OutSizeIsSerialized(o: TxOut)
    requires WellFormedOut(o)
    ensures |WriteOut(o)| == OutSize(o.script)
  {
  }

  predicate AllWellFormed(outputs: seq<TxOut>) {
    forall i :: 0 <= i < |outputs| ==> WellFormedOut(outputs[i])
  }

  function TotalSize(outputs: seq<TxOut>): nat
    requires AllWellFormed(outputs)
  {
    if outputs == [] then 0 else TotalSize(outputs[..|outputs| - 1]) + OutSize(outputs[|outputs| - 1].script)
  }

  function SigOpCost(outputs: seq<TxOut>): nat {
    if outputs == [] then 0 else SigOpCost(outputs[..|outputs| - 1]) + 4 * SigOps(outputs[|outputs| - 1].script)
  }

  datatype Constraints = Constraints(maxSize: nat, maxSigops: nat)

  /** `coinbase_output_constraints_message`, with its `u32` sum and its `as u16`. */
  function Exact(outputs: seq<TxOut>): Constraints
    requires AllWellFormed(outputs)
  {
    Constraints(TotalSize(outputs) % U32, SigOpCost(outputs) % U16)
  }

  /** `coinbase_output_constraints_message_with_offset`. */
  function WithOffset(outputs: seq<TxOut>): Constraints
    requires AllWellFormed(outputs)
  {
    var c := Exact(outputs);
    Constraints((c.maxSize + OFFSET_ADDITIONAL_SIZE) % U32, (c.maxSigops + OFFSET_MAX_SIGOPS) % U16)
  }

  predicate Fits(outputs: seq<TxOut>, c: Constraints)
    requires AllWellFormed(outputs)
  {
    TotalSize(outputs) <= c.maxSize && SigOpCost(outputs) <= c.maxSigops
  }

  lemma {:induction false} WriteOutsSnoc(outs: seq<TxOut>, o: TxOut)
    requires AllWellFormed(outs) && WellFormedOut(o)
    ensures |WriteOuts(outs + [o])| == |WriteOuts(outs)| + |WriteOut(o)|
  {
    if outs == [] {
      assert outs + [o] == [o] && [o][1..] == [];
    } else {
      assert (outs + [o])[1..] == outs[1..] + [o];
      WriteOutsSnoc(outs[1..], o);
    }
  }

  /** The size counted is the number of bytes the outputs take in a transaction. */
  lemma {:induction false} SizeIsSerialized(outs: seq<TxOut>)
    requires AllWellFormed(outs)
    ensures TotalSize(outs) == |WriteOuts(outs)|
  {
    if outs != [] {
      var n := |outs| - 1;
      SizeIsSerialized(outs[..n]);
      WriteOutsSnoc(outs[..n], outs[n]);
      OutSizeIsSerialized(outs[n]);
      assert outs == outs[..n] + [outs[n]];
    }
  }

  /** Exact constraints cover the outputs they were computed from, if and only if the figures fit their words. */
  lemma ExactCoversItself(outs: seq<TxOut>)
    requires AllWellFormed(outs)
    ensures Fits(outs, Exact(outs)) <==> |WriteOuts(outs)| < 0x1_0000_0000 && SigOpCost(outs) < 0x1_0000
    ensures Fits(outs, Exact(outs)) ==> Exact(outs) == Constraints(|WriteOuts(outs)|, SigOpCost(outs))
  {
    SizeIsSerialized(outs);
    ModFits(TotalSize(outs), U32);
    ModFits(SigOpCost(outs), U16);
  }

  lemma ModFits(x: nat, m: nat)
    requires m > 0
    ensures x <= x % m <==> x < m
    ensures x < m ==> x % m == x
  {
  }

  /** What each signature operation counts, and how far each kind of push reaches. */
  lemma SigOpTable(rest: Script)
    ensures SigOps([0xac] + rest) == SigOps([0xad] + rest) == 1 + SigOps(rest)
    ensures SigOps([0xae] + rest) == SigOps([0xaf] + rest) == 20 + SigOps(rest)
  {
    assert ([0xac] + rest)[1..] == rest && ([0xad] + rest)[1..] == rest;
    assert ([0xae] + rest)[1..] == rest && ([0xaf] + rest)[1..] == rest;
  }

  lemma PushDataSkipped(op: byte, width: nat, data: seq<byte>, rest: Script)
    requires (op == 0x4c && width == 1) || (op == 0x4d && width == 2) || (op == 0x4e && width == 4)
    requires |data| < Pow256(width)
    ensures SigOps([op] + LeBytes(|data|, width) + data + rest) == SigOps(rest)
  {
    var s: Script := [op] + LeBytes(|data|, width) + data + rest;
    LeRoundTrip(|data|, width);
    assert s[1..1 + width] == LeBytes(|data|, width);
    assert s[1 + width + |data|..] == rest;
  }

  // ---------------------------------------------------------------- standard miner scripts

  datatype Standard =
    | P2pkh(hash: seq<byte>)
    | P2sh(hash: seq<byte>)
    | P2wpkh(hash: seq<byte>)
    | P2wsh(hash: seq<byte>)
    | P2tr(key: seq<byte>)

  predicate WellSized(k: Standard) {
    match k
    case P2pkh(h) => |h| == 20
    case P2sh(h) => |h| == 20
    case P2wpkh(h) => |h| == 20
    case P2wsh(h) => |h| == 32
    case P2tr(key) => |key| == 32
  }

  function ScriptOf(k: Standard): Script {
    match k
    case P2pkh(h) => [0x76, 0xa9, 0x14] + h + [0x88, OP_CHECKSIG]
    case P2sh(h) => [0xa9, 0x14] + h + [0x87]
    case P2wpkh(h) => [0x00, 0x14] + h
    case P2wsh(h) => [0x00, 0x20] + h
    case P2tr(key) => [0x51, 0x20] + key
  }

  /** A pushed hash contributes nothing, whatever its bytes. */
  lemma PushSkipped(data: seq<byte>, rest: Script)
    requires 1 <= |data| <= 0x4b
    ensures SigOps([|data|] + data + rest) == SigOps(rest)
  {
    var s: Script := [|data|] + data + rest;
    assert s[1 + |data|..] == rest;
  }

  lemma OpSkipped(op: byte, rest: Script)
    requires op == 0 || 0x4f <= op < OP_CHECKSIG
    ensures SigOps([op] + rest) == SigOps(rest)
  {
    assert ([op] + rest)[1..] == rest;
  }

  /** Only a public-key-hash output costs anything, and it costs one operation. */
  lemma StandardSigOps(k: Standard)
    requires WellSized(k)
    ensures SigOps(ScriptOf(k)) == if k.P2pkh? then 1 else 0
  {
    match k
    case P2pkh(h) => KeyHash(h);
    case P2sh(h) => ScriptHash(h);
    case P2wpkh(h) =>
      assert ScriptOf(k) == [0x00] + ([20] + h);
      WitnessProgram(0x00, h);
    case P2wsh(h) =>
      assert ScriptOf(k) == [0x00] + ([32] + h);
      WitnessProgram(0x00, h);
    case P2tr(key) =>
      assert ScriptOf(k) == [0x51] + ([32] + key);
      WitnessProgram(0x51, key);
  }

  lemma KeyHash(h: seq<byte>)
    requires |h| == 20
    ensures SigOps(ScriptOf(P2pkh(h))) == 1
  {
    var tail: Script := [0x88] + [OP_CHECKSIG];
    var push: Script := [20] + h + tail;
    assert ScriptOf(P2pkh(h)) == [0x76] + ([0xa9] + push);
    OpSkipped(0x76, [0xa9] + push);
    OpSkipped(0xa9, push);
    PushSkipped(h, tail);
    CheckSigTail();
  }

  lemma CheckSigTail()
    ensures SigOps([0x88] + [OP_CHECKSIG]) == 1
  {
    OpSkipped(0x88, [OP_CHECKSIG]);
    assert [OP_CHECKSIG][1..] == [];
    assert SigOps([OP_CHECKSIG]) == 1 + SigOps([]);
  }

  lemma ScriptHash(h: seq<byte>)
    requires |h| == 20
    ensures SigOps(ScriptOf(P2sh(h))) == 0
  {
    assert ScriptOf(P2sh(h)) == [0xa9] + ([20] + h + [0x87]);
    OpSkipped(0xa9, [20] + h + [0x87]);
    PushSkipped(h, [0x87]);
    assert [0x87] == [0x87] + [];
    OpSkipped(0x87, []);
  }

  lemma WitnessProgram(version: byte, program: seq<byte>)
    requires (version == 0x00 || version == 0x51) && 1 <= |program| <= 0x4b
    ensures SigOps([version] + ([|program|] + program)) == 0
  {
    OpSkipped(version, [|program|] + program);
    PushAlone(program);
  }

  lemma PushAlone(data: seq<byte>)
    requires 1 <= |data| <= 0x4b
    ensures SigOps([|data|] + data) == 0
  {
    var s: Script := [|data|] + data;
    assert s == s + [];
    PushSkipped(data, []);
  }

  /** No standard output is larger than a taproot output. */
  lemma StandardSize(k: Standard)
    requires WellSized(k)
    ensures |ScriptOf(k)| < U64 && OutSize(ScriptOf(k)) <= OFFSET_ADDITIONAL_SIZE
    ensures k.P2tr? ==> OutSize(ScriptOf(k)) == OFFSET_ADDITIONAL_SIZE
  {
  }

  // ---------------------------------------------------------------- the reservation

  /** The mode pays a standard script, if it pays a miner at all. */
  predicate PaysStandard(mode: Mode, k: Standard) {
    WellSized(k) && (!mode.FullDonation? ==> mode.script == ScriptOf(k))
  }

  lemma One(o: TxOut)
    requires WellFormedOut(o)
    ensures TotalSize([o]) == OutSize(o.script) && SigOpCost([o]) == 4 * SigOps(o.script)
  {
    assert [o][..0] == [];
  }

  lemma Two(o: TxOut, o': TxOut)
    requires WellFormedOut(o) && WellFormedOut(o')
    ensures TotalSize([o, o']) == OutSize(o.script) + OutSize(o'.script)
    ensures SigOpCost([o, o']) == 4 * SigOps(o.script) + 4 * SigOps(o'.script)
  {
    assert [o, o'][..1] == [o];
    One(o);
  }

  /** The figures of what a mode builds, by the scripts it pays. */
  lemma BuiltFigures(mode: Mode, total: u64, pool: Script)
    requires |pool| < U64 && (!mode.FullDonation? ==> |mode.script| < U64)
    ensures var outs := CoinbaseOutputs(mode, total, pool);
            && AllWellFormed(outs)
            && TotalSize(outs) == (if mode.Donate? || mode.FullDonation? then OutSize(pool) else 0)
                                  + (if mode.FullDonation? then 0 else OutSize(mode.script))
            && SigOpCost(outs) == (if mode.Donate? || mode.FullDonation? then 4 * SigOps(pool) else 0)
                                  + (if mode.FullDonation? then 0 else 4 * SigOps(mode.script))
  {
    var outs := CoinbaseOutputs(mode, total, pool);
    if mode.Donate? {
      Two(outs[0], outs[1]);
    } else {
      One(outs[0]);
    }
  }

  /** The pool's own figures leave room for the offsets in the machine words that carry them. */
  predicate RoomForOffsets(pool: Script)
    requires |pool| < U64
  {
    OutSize(pool) + OFFSET_ADDITIONAL_SIZE < U32 && 4 * SigOps(pool) + OFFSET_MAX_SIGOPS < U16
  }

  /** What is announced, as machine words and as numbers. */
  lemma Announced(pool: TxOut)
    requires WellFormedOut(pool)
    ensures var c := WithOffset([pool]);
            var size := OutSize(pool.script) + OFFSET_ADDITIONAL_SIZE;
            var sigops := 4 * SigOps(pool.script) + OFFSET_MAX_SIGOPS;
            && (if size < U32 then c.maxSize == size else c.maxSize < size)
            && (if sigops < U16 then c.maxSigops == sigops else c.maxSigops < sigops)
  {
    One(pool);
    Overflows(OutSize(pool.script), OFFSET_ADDITIONAL_SIZE, U32);
    Overflows(4 * SigOps(pool.script), OFFSET_MAX_SIGOPS, U16);
  }

  /** Once a sum does not fit its word, the wrapped sum is below it. */
  lemma Overflows(x: nat, offset: nat, modulus: nat)
    requires 0 < offset < modulus
    ensures x + offset >= modulus ==> (x % modulus + offset) % modulus < x + offset
    ensures x + offset < modulus ==> (x % modulus + offset) % modulus == x + offset
  {
  }

  /**
   The reservation made from the pool output alone covers whatever any payout mode builds, for any
   reward and any standard miner script.
   */
  lemma ReservationSuffices(mode: Mode, k: Standard, total: u64, pool: TxOut)
    requires PaysStandard(mode, k) && WellFormedOut(pool) && RoomForOffsets(pool.script)
    ensures AllWellFormed(CoinbaseOutputs(mode, total, pool.script))
    ensures Fits(CoinbaseOutputs(mode, total, pool.script), WithOffset([pool]))
  {
    StandardSize(k);
    StandardSigOps(k);
    BuiltFigures(mode, total, pool.script);
    Announced(pool);
  }

  /**
   The condition is exact: a donation to a taproot miner and one to a public-key-hash miner both fit
   if and only if the offsets do not overflow; a pool script with 16383 signature operations is
   already too many.
   */
  lemma ReservationNeedsRoom(p: u8, address: string, tr: Standard, pkh: Standard, total: u64, pool: TxOut)
    requires tr.P2tr? && pkh.P2pkh? && WellSized(tr) && WellSized(pkh) && WellFormedOut(pool)
    ensures var toTaproot := CoinbaseOutputs(Donate(p, address, ScriptOf(tr)), total, pool.script);
            var toKeyHash := CoinbaseOutputs(Donate(p, address, ScriptOf(pkh)), total, pool.script);
            && AllWellFormed(toTaproot) && AllWellFormed(toKeyHash)
            && (Fits(toTaproot, WithOffset([pool])) && Fits(toKeyHash, WithOffset([pool]))
                <==> RoomForOffsets(pool.script))
  {
    StandardSize(tr);
    StandardSize(pkh);
    StandardSigOps(tr);
    StandardSigOps(pkh);
    BuiltFigures(Donate(p, address, ScriptOf(tr)), total, pool.script);
    BuiltFigures(Donate(p, address, ScriptOf(pkh)), total, pool.script);
    Announced(pool);
  }
}
