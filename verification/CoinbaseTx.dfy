/**
 Checking the payout of a coinbase transaction that arrives as a prefix and a suffix around the
 extranonce: the gap is filled with zeros, the transaction is decoded and its outputs are validated.

 The layout is that of the Serialization section of BIP 144, with and without witnesses.
 */
module CoinbaseTx {
  import opened Bytes
  import opened Payout
  import opened Options

  datatype TxIn = TxIn(prevout: seq<byte>, scriptSig: seq<byte>, sequence: seq<byte>)

  /** The stack of an input's witness. */
  type Witness = seq<seq<byte>>

  datatype Tx =
    Tx(version: seq<byte>, inputs: seq<TxIn>, outputs: seq<TxOut>, witnesses: seq<Witness>, lockTime: seq<byte>)

  predicate WellFormedIn(i: TxIn) {
    |i.prevout| == 36 && |i.scriptSig| < U64 && |i.sequence| == 4
  }

  predicate WellFormedOut(o: TxOut) {
    |o.script| < U64
  }

  predicate WellFormedWitness(w: Witness) {
    |w| < U64 && forall i :: 0 <= i < |w| ==> |w[i]| < U64
  }

  predicate WellFormed(tx: Tx) {
    && |tx.version| == 4 && |tx.lockTime| == 4
    && |tx.inputs| < U64 && (forall i :: 0 <= i < |tx.inputs| ==> WellFormedIn(tx.inputs[i]))
    && |tx.outputs| < U64 && (forall i :: 0 <= i < |tx.outputs| ==> WellFormedOut(tx.outputs[i]))
    && |tx.witnesses| == |tx.inputs|
    && (forall i :: 0 <= i < |tx.witnesses| ==> WellFormedWitness(tx.witnesses[i]))
  }

  /** Written with marker, flag and witnesses: some witness is there, or no input is. */
  predicate Segwit(tx: Tx) {
    tx.inputs == [] || !AllEmpty(tx.witnesses)
  }

  predicate AllEmpty(ws: seq<Witness>) {
    forall i :: 0 <= i < |ws| ==> ws[i] == []
  }

  // ---------------------------------------------------------------- writing

  function VarInt(n: u64): seq<byte> {
    if n < 0xfd then [n]
    else if n < 0x1_0000 then [0xfd] + LeBytes(n, 2)
    else if n < 0x1_0000_0000 then [0xfe] + LeBytes(n, 4)
    else [0xff] + LeBytes(n, 8)
  }

  /** The four forms of a compact size, by the size of the number. */
  lemma VarIntForms(n: u64)
    ensures var s := VarInt(n);
            if n <= 252 then s == [n]
            else if n <= 65535 then |s| == 3 && s[0] == 253 && LeNat(s[1..]) == n
            else if n <= 4294967295 then |s| == 5 && s[0] == 254 && LeNat(s[1..]) == n
            else |s| == 9 && s[0] == 255 && LeNat(s[1..]) == n
  {
    Pow256Values();
    var width := if n <= 65535 then 2 else if n <= 4294967295 then 4 else 8;
    LeRoundTrip(n, width);
    if n > 252 {
      assert VarInt(n)[1..] == LeBytes(n, width);
    }
  }

  function VarBytes(s: seq<byte>): seq<byte>
    requires |s| < U64
  {
    VarInt(|s|) + s
  }

  function WriteIn(i: TxIn): seq<byte>
    requires WellFormedIn(i)
  {
    i.prevout + VarBytes(i.scriptSig) + i.sequence
  }

  function WriteOut(o: TxOut): seq<byte>
    requires WellFormedOut(o)
  {
    LeBytes(o.value, 8) + VarBytes(o.script)
  }

  function WriteIns(ins: seq<TxIn>): seq<byte>
    requires forall i :: 0 <= i < |ins| ==> WellFormedIn(ins[i])
  {
    if ins == [] then [] else WriteIn(ins[0]) + WriteIns(ins[1..])
  }

  function WriteOuts(outs: seq<TxOut>): seq<byte>
    requires forall i :: 0 <= i < |outs| ==> WellFormedOut(outs[i])
  {
    if outs == [] then [] else WriteOut(outs[0]) + WriteOuts(outs[1..])
  }

  function WriteItems(items: seq<seq<byte>>): seq<byte>
    requires forall i :: 0 <= i < |items| ==> |items[i]| < U64
  {
    if items == [] then [] else VarBytes(items[0]) + WriteItems(items[1..])
  }

  function WriteWitness(w: Witness): seq<byte>
    requires WellFormedWitness(w)
  {
    VarInt(|w|) + WriteItems(w)
  }

  function WriteWitnesses(ws: seq<Witness>): seq<byte>
    requires forall i :: 0 <= i < |ws| ==> WellFormedWitness(ws[i])
  {
    if ws == [] then [] else WriteWitness(ws[0]) + WriteWitnesses(ws[1..])
  }

  function Marker(tx: Tx): seq<byte> {
    if Segwit(tx) then [0, 1] else []
  }

  /** What follows the outputs. */
  function Tail(tx: Tx): seq<byte>
    requires WellFormed(tx)
  {
    (if Segwit(tx) then WriteWitnesses(tx.witnesses) else []) + tx.lockTime
  }

  function Body(tx: Tx): seq<byte>
    requires WellFormed(tx)
  {
    VarInt(|tx.inputs|) + (WriteIns(tx.inputs) + (VarInt(|tx.outputs|) + (WriteOuts(tx.outputs) + Tail(tx))))
  }

  function Serialize(tx: Tx): seq<byte>
    requires WellFormed(tx)
  {
    tx.version + (Marker(tx) + Body(tx))
  }

  /** Where the parts of an output and of an input lie. */
  lemma OutputFields(o: TxOut)
    requires WellFormedOut(o)
    ensures |WriteOut(o)| >= 8 && LeNat(WriteOut(o)[..8]) == o.value
    ensures WriteOut(o)[8..] == VarInt(|o.script|) + o.script
  {
    Pow256Values();
    LeRoundTrip(o.value, 8);
    FrontAndRest(LeBytes(o.value, 8), VarBytes(o.script));
  }

  lemma InputFields(i: TxIn)
    requires WellFormedIn(i)
    ensures |WriteIn(i)| >= 40 && WriteIn(i)[..36] == i.prevout && WriteIn(i)[|WriteIn(i)| - 4..] == i.sequence
    ensures WriteIn(i)[36..|WriteIn(i)| - 4] == VarInt(|i.scriptSig|) + i.scriptSig
  {
  }

  lemma FrontAndRest(a: seq<byte>, b: seq<byte>)
    ensures (a + b)[..|a|] == a && (a + b)[|a|..] == b
  {
  }

  /** The frame of a transaction: version first, then the marker exactly with witnesses, lock time last. */
  lemma TransactionFrame(tx: Tx)
    requires WellFormed(tx)
    ensures var s := Serialize(tx);
            && |s| >= 8 && s[..4] == tx.version && s[|s| - 4..] == tx.lockTime
            && (Segwit(tx) ==> s[4..6] == [0, 1])
            && (!Segwit(tx) ==> VarInt(|tx.inputs|) <= s[4..])
  {
    BodyEnds(tx);
    assert Marker(tx) == if Segwit(tx) then [0, 1] else [];
    Framed(tx.version, Marker(tx), VarInt(|tx.inputs|), Body(tx), tx.lockTime);
  }

  lemma BodyEnds(tx: Tx)
    requires WellFormed(tx)
    ensures VarInt(|tx.inputs|) <= Body(tx)
    ensures |Body(tx)| >= 4 && Body(tx)[|Body(tx)| - 4..] == tx.lockTime
  {
    TailEnds(tx);
    EndsWith(VarInt(|tx.inputs|), WriteIns(tx.inputs), VarInt(|tx.outputs|), WriteOuts(tx.outputs), Tail(tx),
             tx.lockTime);
  }

  lemma TailEnds(tx: Tx)
    requires WellFormed(tx)
    ensures |Tail(tx)| >= 4 && Tail(tx)[|Tail(tx)| - 4..] == tx.lockTime
  {
  }

  lemma EndsWith(a: seq<byte>, b: seq<byte>, c: seq<byte>, d: seq<byte>, e: seq<byte>, end: seq<byte>)
    requires |e| >= |end| && e[|e| - |end|..] == end
    ensures var s := a + (b + (c + (d + e))); a <= s && |s| >= |end| && s[|s| - |end|..] == end
  {
    assert e == e[..|e| - |end|] + end;
    assert a + (b + (c + (d + e))) == a + b + c + d + e[..|e| - |end|] + end;
  }

  lemma Framed(version: seq<byte>, marker: seq<byte>, count: seq<byte>, body: seq<byte>, end: seq<byte>)
    requires |version| == 4 && count <= body && |body| >= |end| && body[|body| - |end|..] == end
    ensures var s := version + (marker + body);
            && s[..4] == version && |s| >= 4 + |marker| + |end| && s[|s| - |end|..] == end
            && (marker == [] ==> count <= s[4..]) && (|marker| == 2 ==> s[4..6] == marker)
  {
  }

  // ---------------------------------------------------------------- reading

  datatype Read<T> = Bad | Got(value: T, rest: seq<byte>)

  function Take(bytes: seq<byte>, n: nat): Read<seq<byte>> {
    if n <= |bytes| then Got(bytes[..n], bytes[n..]) else Bad
  }

  lemma Pow256Values()
    ensures Pow256(2) == 0x1_0000 && Pow256(4) == 0x1_0000_0000 && Pow256(8) == U64
  {
    assert Pow256(4) == 256 * (256 * Pow256(2));
    assert Pow256(6) == 256 * (256 * Pow256(4));
    assert Pow256(8) == 256 * (256 * Pow256(6));
  }

  function ReadLe(bytes: seq<byte>, n: nat): Read<u64>
    requires n in {2, 4, 8}
  {
    if n <= |bytes| then
      LeNatBound(bytes[..n]);
      Pow256Values();
      Got(LeNat(bytes[..n]), bytes[n..])
    else Bad
  }

  /** A compact size; an encoding longer than necessary is refused. */
  function ReadVarInt(bytes: seq<byte>): Read<u64> {
    if bytes == [] then Bad
    else if bytes[0] < 0xfd then Got(bytes[0], bytes[1..])
    else
      var (width, least) :=
        if bytes[0] == 0xfd then (2, 0xfd) else if bytes[0] == 0xfe then (4, 0x1_0000) else (8, 0x1_0000_0000);
      match ReadLe(bytes[1..], width)
      case Bad => Bad
      case Got(n, rest) => if n < least then Bad else Got(n, rest)
  }

  function ReadVarBytes(bytes: seq<byte>): Read<seq<byte>> {
    match ReadVarInt(bytes)
    case Bad => Bad
    case Got(n, rest) => Take(rest, n)
  }

  function ReadIn(bytes: seq<byte>): Read<TxIn> {
    match Take(bytes, 36)
    case Bad => Bad
    case Got(prevout, rest) =>
      match ReadVarBytes(rest)
      case Bad => Bad
      case Got(script, rest') =>
        match Take(rest', 4)
        case Bad => Bad
        case Got(sequence, rest'') => Got(TxIn(prevout, script, sequence), rest'')
  }

  function ReadOut(bytes: seq<byte>): Read<TxOut> {
    match ReadLe(bytes, 8)
    case Bad => Bad
    case Got(value, rest) =>
      match ReadVarBytes(rest)
      case Bad => Bad
      case Got(script, rest') => Got(TxOut(value, script), rest')
  }

  function ReadIns(bytes: seq<byte>, n: nat): Read<seq<TxIn>>
    decreases n
  {
    if n == 0 then Got([], bytes)
    else
      match ReadIn(bytes)
      case Bad => Bad
      case Got(i, rest) =>
        match ReadIns(rest, n - 1)
        case Bad => Bad
        case Got(ins, rest') => Got([i] + ins, rest')
  }

  function ReadOuts(bytes: seq<byte>, n: nat): Read<seq<TxOut>>
    decreases n
  {
    if n == 0 then Got([], bytes)
    else
      match ReadOut(bytes)
      case Bad => Bad
      case Got(o, rest) =>
        match ReadOuts(rest, n - 1)
        case Bad => Bad
        case Got(outs, rest') => Got([o] + outs, rest')
  }

  function ReadInputs(bytes: seq<byte>): Read<seq<TxIn>> {
    match ReadVarInt(bytes)
    case Bad => Bad
    case Got(n, rest) => ReadIns(rest, n)
  }

  function ReadOutputs(bytes: seq<byte>): Read<seq<TxOut>> {
    match ReadVarInt(bytes)
    case Bad => Bad
    case Got(n, rest) => ReadOuts(rest, n)
  }

  function ReadItems(bytes: seq<byte>, n: nat): Read<seq<seq<byte>>>
    decreases n
  {
    if n == 0 then Got([], bytes)
    else
      match ReadVarBytes(bytes)
      case Bad => Bad
      case Got(item, rest) =>
        match ReadItems(rest, n - 1)
        case Bad => Bad
        case Got(items, rest') => Got([item] + items, rest')
  }

  function ReadWitness(bytes: seq<byte>): Read<Witness> {
    match ReadVarInt(bytes)
    case Bad => Bad
    case Got(n, rest) => ReadItems(rest, n)
  }

  function ReadWitnesses(bytes: seq<byte>, n: nat): Read<seq<Witness>>
    decreases n
  {
    if n == 0 then Got([], bytes)
    else
      match ReadWitness(bytes)
      case Bad => Bad
      case Got(w, rest) =>
        match ReadWitnesses(rest, n - 1)
        case Bad => Bad
        case Got(ws, rest') => Got([w] + ws, rest')
  }

  function NoWitnesses(n: nat): (ws: seq<Witness>)
    ensures |ws| == n && AllEmpty(ws)
  {
    seq(n, _ => [])
  }

  /** The rest of a transaction without marker. */
  function ReadLegacy(version: seq<byte>, inputs: seq<TxIn>, bytes: seq<byte>): Option<Tx> {
    match ReadOutputs(bytes)
    case Bad => None
    case Got(outputs, rest) =>
      if |rest| == 4 then Some(Tx(version, inputs, outputs, NoWitnesses(|inputs|), rest)) else None
  }

  /** The rest of a transaction after marker and flag; inputs without any witness are refused. */
  function ReadSegwit(version: seq<byte>, bytes: seq<byte>): Option<Tx> {
    match ReadInputs(bytes)
    case Bad => None
    case Got(inputs, r1) =>
      match ReadOutputs(r1)
      case Bad => None
      case Got(outputs, r2) =>
        match ReadWitnesses(r2, |inputs|)
        case Bad => None
        case Got(witnesses, r3) =>
          if |r3| != 4 || (inputs != [] && AllEmpty(witnesses)) then None
          else Some(Tx(version, inputs, outputs, witnesses, r3))
  }

  /** `deserialize`: all bytes must be used, and an empty list of inputs announces the flag 1. */
  function Deserialize(bytes: seq<byte>): Option<Tx> {
    match Take(bytes, 4)
    case Bad => None
    case Got(version, r1) =>
      match ReadInputs(r1)
      case Bad => None
      case Got(inputs, r2) =>
        if inputs != [] then ReadLegacy(version, inputs, r2)
        else if r2 != [] && r2[0] == 1 then ReadSegwit(version, r2[1..])
        else None
  }

  // ---------------------------------------------------------------- round trips

  lemma ReadsLe(v: u64, n: nat, rest: seq<byte>)
    requires n in {2, 4, 8} && v < Pow256(n)
    ensures ReadLe(LeBytes(v, n) + rest, n) == Got(v, rest)
  {
    LeRoundTrip(v, n);
    assert (LeBytes(v, n) + rest)[..n] == LeBytes(v, n);
  }

  lemma ReadsVarInt(n: u64, rest: seq<byte>)
    ensures ReadVarInt(VarInt(n) + rest) == Got(n, rest)
  {
    Pow256Values();
    var bytes := VarInt(n) + rest;
    if n < 0xfd {
      assert bytes[1..] == rest;
    } else if n < 0x1_0000 {
      ReadsWide(0xfd, n, 2, rest);
    } else if n < 0x1_0000_0000 {
      ReadsWide(0xfe, n, 4, rest);
    } else {
      ReadsWide(0xff, n, 8, rest);
    }
  }

  /** A tag byte announces the width; the value reads back unless a shorter form would have done. */
  lemma ReadsWide(tag: byte, n: u64, width: nat, rest: seq<byte>)
    requires 0xfd <= tag && width == (if tag == 0xfd then 2 else if tag == 0xfe then 4 else 8) && n < Pow256(width)
    ensures var least := if tag == 0xfd then 0xfd else if tag == 0xfe then 0x1_0000 else 0x1_0000_0000;
            ReadVarInt([tag] + LeBytes(n, width) + rest) == if n < least then Bad else Got(n, rest)
  {
    var bytes := [tag] + LeBytes(n, width) + rest;
    assert bytes[0] == tag && bytes[1..] == LeBytes(n, width) + rest;
    ReadsLe(n, width, rest);
  }

  lemma Takes(s: seq<byte>, rest: seq<byte>)
    ensures Take(s + rest, |s|) == Got(s, rest)
  {
  }

  lemma ReadsVarBytes(s: seq<byte>, rest: seq<byte>)
    requires |s| < U64
    ensures ReadVarBytes(VarBytes(s) + rest) == Got(s, rest)
  {
    assert VarBytes(s) + rest == VarInt(|s|) + (s + rest);
    ReadsVarInt(|s|, s + rest);
    Takes(s, rest);
  }

  lemma ReadsIn(i: TxIn, rest: seq<byte>)
    requires WellFormedIn(i)
    ensures ReadIn(WriteIn(i) + rest) == Got(i, rest)
  {
    var afterScript := i.sequence + rest;
    assert WriteIn(i) + rest == i.prevout + (VarBytes(i.scriptSig) + afterScript);
    Takes(i.prevout, VarBytes(i.scriptSig) + afterScript);
    ReadsVarBytes(i.scriptSig, afterScript);
    Takes(i.sequence, rest);
  }

  lemma ReadsOut(o: TxOut, rest: seq<byte>)
    requires WellFormedOut(o)
    ensures ReadOut(WriteOut(o) + rest) == Got(o, rest)
  {
    Pow256Values();
    assert WriteOut(o) + rest == LeBytes(o.value, 8) + (VarBytes(o.script) + rest);
    ReadsLe(o.value, 8, VarBytes(o.script) + rest);
    ReadsVarBytes(o.script, rest);
  }

  lemma {:induction false} ReadsIns(ins: seq<TxIn>, rest: seq<byte>)
    requires forall i :: 0 <= i < |ins| ==> WellFormedIn(ins[i])
    ensures ReadIns(WriteIns(ins) + rest, |ins|) == Got(ins, rest)
    decreases |ins|
  {
    if ins == [] {
      assert WriteIns(ins) + rest == rest;
    } else {
      Regroup(WriteIn(ins[0]), WriteIns(ins[1..]), rest);
      ReadsIn(ins[0], WriteIns(ins[1..]) + rest);
      ReadsIns(ins[1..], rest);
      assert [ins[0]] + ins[1..] == ins;
    }
  }

  lemma {:induction false} ReadsOuts(outs: seq<TxOut>, rest: seq<byte>)
    requires forall i :: 0 <= i < |outs| ==> WellFormedOut(outs[i])
    ensures ReadOuts(WriteOuts(outs) + rest, |outs|) == Got(outs, rest)
    decreases |outs|
  {
    if outs == [] {
      assert WriteOuts(outs) + rest == rest;
    } else {
      Regroup(WriteOut(outs[0]), WriteOuts(outs[1..]), rest);
      ReadsOut(outs[0], WriteOuts(outs[1..]) + rest);
      ReadsOuts(outs[1..], rest);
      assert [outs[0]] + outs[1..] == outs;
    }
  }

  lemma {:induction false} ReadsItems(items: seq<seq<byte>>, rest: seq<byte>)
    requires forall i :: 0 <= i < |items| ==> |items[i]| < U64
    ensures ReadItems(WriteItems(items) + rest, |items|) == Got(items, rest)
    decreases |items|
  {
    if items == [] {
      assert WriteItems(items) + rest == rest;
    } else {
      Regroup(VarBytes(items[0]), WriteItems(items[1..]), rest);
      ReadsVarBytes(items[0], WriteItems(items[1..]) + rest);
      ReadsItems(items[1..], rest);
      assert [items[0]] + items[1..] == items;
    }
  }

  lemma ReadsWitness(w: Witness, rest: seq<byte>)
    requires WellFormedWitness(w)
    ensures ReadWitness(WriteWitness(w) + rest) == Got(w, rest)
  {
    Regroup(VarInt(|w|), WriteItems(w), rest);
    ReadsVarInt(|w|, WriteItems(w) + rest);
    ReadsItems(w, rest);
  }

  lemma {:induction false} ReadsWitnesses(ws: seq<Witness>, rest: seq<byte>)
    requires forall i :: 0 <= i < |ws| ==> WellFormedWitness(ws[i])
    ensures ReadWitnesses(WriteWitnesses(ws) + rest, |ws|) == Got(ws, rest)
    decreases |ws|
  {
    if ws == [] {
      assert WriteWitnesses(ws) + rest == rest;
    } else {
      Regroup(WriteWitness(ws[0]), WriteWitnesses(ws[1..]), rest);
      ReadsWitness(ws[0], WriteWitnesses(ws[1..]) + rest);
      ReadsWitnesses(ws[1..], rest);
      assert [ws[0]] + ws[1..] == ws;
    }
  }

  lemma ReadsInputs(ins: seq<TxIn>, rest: seq<byte>)
    requires |ins| < U64 && forall i :: 0 <= i < |ins| ==> WellFormedIn(ins[i])
    ensures ReadInputs(VarInt(|ins|) + (WriteIns(ins) + rest)) == Got(ins, rest)
  {
    ReadsVarInt(|ins|, WriteIns(ins) + rest);
    ReadsIns(ins, rest);
  }

  lemma ReadsOutputs(outs: seq<TxOut>, rest: seq<byte>)
    requires |outs| < U64 && forall i :: 0 <= i < |outs| ==> WellFormedOut(outs[i])
    ensures ReadOutputs(VarInt(|outs|) + (WriteOuts(outs) + rest)) == Got(outs, rest)
  {
    ReadsVarInt(|outs|, WriteOuts(outs) + rest);
    ReadsOuts(outs, rest);
  }

  lemma ReadsLegacy(tx: Tx)
    requires WellFormed(tx) && !Segwit(tx)
    ensures ReadInputs(Body(tx)).Got? && ReadInputs(Body(tx)).value == tx.inputs
    ensures ReadLegacy(tx.version, tx.inputs, ReadInputs(Body(tx)).rest) == Some(tx)
  {
    ReadsInputs(tx.inputs, VarInt(|tx.outputs|) + (WriteOuts(tx.outputs) + Tail(tx)));
    ReadsOutputs(tx.outputs, Tail(tx));
    assert Tail(tx) == tx.lockTime;
    assert tx.witnesses == NoWitnesses(|tx.inputs|);
  }

  lemma ReadsSegwit(tx: Tx)
    requires WellFormed(tx) && Segwit(tx)
    ensures ReadSegwit(tx.version, Body(tx)) == Some(tx)
  {
    ReadsInputs(tx.inputs, VarInt(|tx.outputs|) + (WriteOuts(tx.outputs) + Tail(tx)));
    ReadsOutputs(tx.outputs, Tail(tx));
    ReadsWitnesses(tx.witnesses, tx.lockTime);
  }

  /** Decoding a serialized transaction gives it back. */
  lemma RoundTrip(tx: Tx)
    requires WellFormed(tx)
    ensures Deserialize(Serialize(tx)) == Some(tx)
  {
    Takes(tx.version, Marker(tx) + Body(tx));
    if Segwit(tx) {
      MarkerReads(Body(tx));
      ReadsSegwit(tx);
    } else {
      assert [] + Body(tx) == Body(tx);
      ReadsLegacy(tx);
    }
  }

  /** The marker reads as an empty list of inputs, and the flag is left. */
  lemma MarkerReads(body: seq<byte>)
    ensures ReadInputs([0, 1] + body) == Got([], [1] + body) && ([1] + body)[1..] == body
  {
    assert ([0, 1] + body)[1..] == [1] + body;
  }

  lemma Regroup(a: seq<byte>, b: seq<byte>, c: seq<byte>)
    ensures (a + b) + c == a + (b + c)
  {
  }

  // ---------------------------------------------------------------- nothing else decodes

  lemma WroteLe(bytes: seq<byte>, n: nat)
    requires n in {2, 4, 8} && ReadLe(bytes, n).Got?
    ensures LeBytes(ReadLe(bytes, n).value, n) + ReadLe(bytes, n).rest == bytes
  {
    WroteFront(bytes, n);
  }

  lemma WroteFront(bytes: seq<byte>, n: nat)
    requires n <= |bytes|
    ensures LeBytes(LeNat(bytes[..n]), n) + bytes[n..] == bytes
  {
    LeBytesRoundTrip(bytes[..n]);
    assert bytes == bytes[..n] + bytes[n..];
  }

  lemma WroteVarInt(bytes: seq<byte>)
    requires ReadVarInt(bytes).Got?
    ensures VarInt(ReadVarInt(bytes).value) + ReadVarInt(bytes).rest == bytes
  {
    assert bytes == [bytes[0]] + bytes[1..];
    if bytes[0] >= 0xfd {
      WroteWide(bytes[0], bytes[1..]);
    }
  }

  lemma WroteWide(tag: byte, tail: seq<byte>)
    requires 0xfd <= tag
    requires var width := if tag == 0xfd then 2 else if tag == 0xfe then 4 else 8;
             var least := if tag == 0xfd then 0xfd else if tag == 0xfe then 0x1_0000 else 0x1_0000_0000;
             ReadLe(tail, width).Got? && least <= ReadLe(tail, width).value
    ensures var width := if tag == 0xfd then 2 else if tag == 0xfe then 4 else 8;
            VarInt(ReadLe(tail, width).value) + ReadLe(tail, width).rest == [tag] + tail
  {
    var width := if tag == 0xfd then 2 else if tag == 0xfe then 4 else 8;
    var n, rest := ReadLe(tail, width).value, ReadLe(tail, width).rest;
    LeNatBound(tail[..width]);
    Pow256Values();
    assert VarInt(n) == [tag] + LeBytes(n, width);
    WroteLe(tail, width);
    assert VarInt(n) + rest == [tag] + (LeBytes(n, width) + rest);
  }

  lemma WroteVarBytes(bytes: seq<byte>)
    requires ReadVarBytes(bytes).Got?
    ensures |ReadVarBytes(bytes).value| < U64
    ensures VarBytes(ReadVarBytes(bytes).value) + ReadVarBytes(bytes).rest == bytes
  {
    WroteVarInt(bytes);
    var tail := ReadVarInt(bytes).rest;
    var s, rest := ReadVarBytes(bytes).value, ReadVarBytes(bytes).rest;
    assert s + rest == tail;
    assert VarBytes(s) + rest == VarInt(|s|) + (s + rest);
  }

  lemma WroteIn(bytes: seq<byte>)
    requires ReadIn(bytes).Got?
    ensures WellFormedIn(ReadIn(bytes).value) && WriteIn(ReadIn(bytes).value) + ReadIn(bytes).rest == bytes
  {
    var tail := bytes[36..];
    WroteVarBytes(tail);
    var i, rest := ReadIn(bytes).value, ReadIn(bytes).rest;
    var last := ReadVarBytes(tail).rest;
    assert bytes == i.prevout + tail && last == i.sequence + rest;
    Regroup(i.prevout + VarBytes(i.scriptSig), i.sequence, rest);
    Regroup(i.prevout, VarBytes(i.scriptSig), i.sequence + rest);
  }

  lemma WroteOut(bytes: seq<byte>)
    requires ReadOut(bytes).Got?
    ensures WellFormedOut(ReadOut(bytes).value) && WriteOut(ReadOut(bytes).value) + ReadOut(bytes).rest == bytes
  {
    var tail := ReadLe(bytes, 8).rest;
    WroteLe(bytes, 8);
    WroteVarBytes(tail);
    var o, rest := ReadOut(bytes).value, ReadOut(bytes).rest;
    Regroup(LeBytes(o.value, 8), VarBytes(o.script), rest);
  }

  lemma {:induction false} WroteIns(bytes: seq<byte>, n: nat)
    requires ReadIns(bytes, n).Got?
    ensures var ins := ReadIns(bytes, n).value;
            && |ins| == n && (forall i :: 0 <= i < n ==> WellFormedIn(ins[i]))
            && WriteIns(ins) + ReadIns(bytes, n).rest == bytes
    decreases n
  {
    if n > 0 {
      WroteIn(bytes);
      var first, tail := ReadIn(bytes).value, ReadIn(bytes).rest;
      WroteIns(tail, n - 1);
      var ins, rest := ReadIns(bytes, n).value, ReadIns(bytes, n).rest;
      assert ins[0] == first && ins[1..] == ReadIns(tail, n - 1).value;
      Regroup(WriteIn(first), WriteIns(ins[1..]), rest);
    }
  }

  lemma {:induction false} WroteOuts(bytes: seq<byte>, n: nat)
    requires ReadOuts(bytes, n).Got?
    ensures var outs := ReadOuts(bytes, n).value;
            && |outs| == n && (forall i :: 0 <= i < n ==> WellFormedOut(outs[i]))
            && WriteOuts(outs) + ReadOuts(bytes, n).rest == bytes
    decreases n
  {
    if n > 0 {
      WroteOut(bytes);
      var first, tail := ReadOut(bytes).value, ReadOut(bytes).rest;
      WroteOuts(tail, n - 1);
      var outs, rest := ReadOuts(bytes, n).value, ReadOuts(bytes, n).rest;
      assert outs[0] == first && outs[1..] == ReadOuts(tail, n - 1).value;
      Regroup(WriteOut(first), WriteOuts(outs[1..]), rest);
    }
  }

  lemma {:induction false} WroteItems(bytes: seq<byte>, n: nat)
    requires ReadItems(bytes, n).Got?
    ensures var items := ReadItems(bytes, n).value;
            && |items| == n && (forall i :: 0 <= i < n ==> |items[i]| < U64)
            && WriteItems(items) + ReadItems(bytes, n).rest == bytes
    decreases n
  {
    if n > 0 {
      WroteVarBytes(bytes);
      var first, tail := ReadVarBytes(bytes).value, ReadVarBytes(bytes).rest;
      WroteItems(tail, n - 1);
      var items, rest := ReadItems(bytes, n).value, ReadItems(bytes, n).rest;
      assert items[0] == first && items[1..] == ReadItems(tail, n - 1).value;
      Regroup(VarBytes(first), WriteItems(items[1..]), rest);
    }
  }

  lemma WroteWitness(bytes: seq<byte>)
    requires ReadWitness(bytes).Got?
    ensures WellFormedWitness(ReadWitness(bytes).value)
    ensures WriteWitness(ReadWitness(bytes).value) + ReadWitness(bytes).rest == bytes
  {
    WroteVarInt(bytes);
    var tail, n := ReadVarInt(bytes).rest, ReadVarInt(bytes).value;
    WroteItems(tail, n);
    Regroup(VarInt(n), WriteItems(ReadWitness(bytes).value), ReadWitness(bytes).rest);
  }

  lemma {:induction false} WroteWitnesses(bytes: seq<byte>, n: nat)
    requires ReadWitnesses(bytes, n).Got?
    ensures var ws := ReadWitnesses(bytes, n).value;
            && |ws| == n && (forall i :: 0 <= i < n ==> WellFormedWitness(ws[i]))
            && WriteWitnesses(ws) + ReadWitnesses(bytes, n).rest == bytes
    decreases n
  {
    if n > 0 {
      WroteWitness(bytes);
      var first, tail := ReadWitness(bytes).value, ReadWitness(bytes).rest;
      WroteWitnesses(tail, n - 1);
      var ws, rest := ReadWitnesses(bytes, n).value, ReadWitnesses(bytes, n).rest;
      assert ws[0] == first && ws[1..] == ReadWitnesses(tail, n - 1).value;
      Regroup(WriteWitness(first), WriteWitnesses(ws[1..]), rest);
    }
  }

  lemma WroteInputs(bytes: seq<byte>)
    requires ReadInputs(bytes).Got?
    ensures var ins := ReadInputs(bytes).value;
            && |ins| < U64 && (forall i :: 0 <= i < |ins| ==> WellFormedIn(ins[i]))
            && VarInt(|ins|) + (WriteIns(ins) + ReadInputs(bytes).rest) == bytes
  {
    WroteVarInt(bytes);
    WroteIns(ReadVarInt(bytes).rest, ReadVarInt(bytes).value);
  }

  lemma WroteOutputs(bytes: seq<byte>)
    requires ReadOutputs(bytes).Got?
    ensures var outs := ReadOutputs(bytes).value;
            && |outs| < U64 && (forall i :: 0 <= i < |outs| ==> WellFormedOut(outs[i]))
            && VarInt(|outs|) + (WriteOuts(outs) + ReadOutputs(bytes).rest) == bytes
  {
    WroteVarInt(bytes);
    WroteOuts(ReadVarInt(bytes).rest, ReadVarInt(bytes).value);
  }

  lemma LegacyBody(tx: Tx)
    requires |tx.version| == 4 && |tx.lockTime| == 4 && tx.witnesses == NoWitnesses(|tx.inputs|) && tx.inputs != []
    requires |tx.inputs| < U64 && |tx.outputs| < U64
    requires forall i :: 0 <= i < |tx.inputs| ==> WellFormedIn(tx.inputs[i])
    requires forall i :: 0 <= i < |tx.outputs| ==> WellFormedOut(tx.outputs[i])
    ensures WellFormed(tx) && !Segwit(tx)
    ensures Body(tx)
         == VarInt(|tx.inputs|) + (WriteIns(tx.inputs) + (VarInt(|tx.outputs|) + (WriteOuts(tx.outputs) + tx.lockTime)))
  {
    assert WellFormed(tx);
    assert Tail(tx) == tx.lockTime;
  }

  lemma WroteLegacy(version: seq<byte>, bytes: seq<byte>)
    requires |version| == 4 && ReadInputs(bytes).Got? && ReadInputs(bytes).value != []
    requires ReadLegacy(version, ReadInputs(bytes).value, ReadInputs(bytes).rest).Some?
    ensures var tx := ReadLegacy(version, ReadInputs(bytes).value, ReadInputs(bytes).rest).value;
            WellFormed(tx) && !Segwit(tx) && Body(tx) == bytes
  {
    WroteInputs(bytes);
    var ins, r1 := ReadInputs(bytes).value, ReadInputs(bytes).rest;
    WroteOutputs(r1);
    var tx := ReadLegacy(version, ins, r1).value;
    LegacyBody(tx);
  }

  lemma WroteSegwit(version: seq<byte>, bytes: seq<byte>)
    requires |version| == 4 && ReadSegwit(version, bytes).Some?
    ensures var tx := ReadSegwit(version, bytes).value; WellFormed(tx) && Segwit(tx) && Body(tx) == bytes
  {
    WroteInputs(bytes);
    var r1 := ReadInputs(bytes).rest;
    WroteOutputs(r1);
    WroteWitnesses(ReadOutputs(r1).rest, |ReadInputs(bytes).value|);
  }

  /** Whatever decodes is well-formed and is the serialization of what it decodes to. */
  lemma DecodesOnlySerializations(bytes: seq<byte>)
    requires Deserialize(bytes).Some?
    ensures WellFormed(Deserialize(bytes).value) && Serialize(Deserialize(bytes).value) == bytes
  {
    var version, r1 := bytes[..4], bytes[4..];
    assert bytes == version + r1;
    if ReadInputs(r1).value != [] {
      WroteLegacy(version, r1);
      assert [] + r1 == r1;
    } else {
      WroteInputs(r1);
      var flagged := ReadInputs(r1).rest;
      WroteSegwit(version, flagged[1..]);
      MarkerIs(r1, flagged);
    }
  }

  lemma MarkerIs(bytes: seq<byte>, flagged: seq<byte>)
    requires VarInt(0) + (WriteIns([]) + flagged) == bytes && flagged != [] && flagged[0] == 1
    ensures bytes == [0, 1] + flagged[1..]
  {
    assert flagged == [1] + flagged[1..];
  }

  // ---------------------------------------------------------------- the split coinbase

  datatype PartsVerdict = DecodeError | Checked(verdict: Verdict)

  function CheckBytes(mode: Mode, coinbase: seq<byte>): PartsVerdict {
    match Deserialize(coinbase)
    case None => DecodeError
    case Some(tx) => Checked(Validate(mode, tx.outputs))
  }

  /** The bytes of a transaction up to the first input's scriptSig, and those after it. */
  function BeforeScriptSig(tx: Tx): seq<byte>
    requires WellFormed(tx) && tx.inputs != []
  {
    tx.version + Marker(tx) + VarInt(|tx.inputs|) + tx.inputs[0].prevout + VarInt(|tx.inputs[0].scriptSig|)
  }

  function AfterScriptSig(tx: Tx): seq<byte>
    requires WellFormed(tx) && tx.inputs != []
  {
    tx.inputs[0].sequence + WriteIns(tx.inputs[1..])
    + (VarInt(|tx.outputs|) + (WriteOuts(tx.outputs) + Tail(tx)))
  }

  lemma SerializedAround(tx: Tx)
    requires WellFormed(tx) && tx.inputs != []
    ensures Serialize(tx) == BeforeScriptSig(tx) + tx.inputs[0].scriptSig + AfterScriptSig(tx)
  {
    var first := tx.inputs[0];
    Regroup(tx.version, Marker(tx), Body(tx));
    RegroupTx(tx.version + Marker(tx), VarInt(|tx.inputs|), first.prevout, VarInt(|first.scriptSig|), first.scriptSig,
              first.sequence, WriteIns(tx.inputs[1..]), VarInt(|tx.outputs|) + (WriteOuts(tx.outputs) + Tail(tx)));
  }

  lemma RegroupTx(start: seq<byte>, count: seq<byte>, prevout: seq<byte>, len: seq<byte>, script: seq<byte>,
                  sequence: seq<byte>, ins: seq<byte>, rest: seq<byte>)
    ensures start + (count + ((prevout + (len + script) + sequence) + ins + rest))
         == (start + count + prevout + len) + script + (sequence + ins + rest)
  {
  }

  lemma RegroupParts(before: seq<byte>, a: seq<byte>, fill: seq<byte>, b: seq<byte>, after: seq<byte>)
    ensures (before + a) + fill + (b + after) == before + (a + fill + b) + after
  {
  }

  function WithScriptSig(tx: Tx, scriptSig: seq<byte>): Tx
    requires tx.inputs != []
  {
    tx.(inputs := [tx.inputs[0].(scriptSig := scriptSig)] + tx.inputs[1..])
  }

  /** Another scriptSig of the same length changes nothing around it. */
  lemma Refilled(tx: Tx, scriptSig: seq<byte>)
    requires WellFormed(tx) && tx.inputs != [] && |scriptSig| == |tx.inputs[0].scriptSig|
    ensures WellFormed(WithScriptSig(tx, scriptSig))
    ensures Serialize(WithScriptSig(tx, scriptSig)) == BeforeScriptSig(tx) + scriptSig + AfterScriptSig(tx)
  {
    var other := WithScriptSig(tx, scriptSig);
    assert other.inputs[1..] == tx.inputs[1..];
    SerializedAround(other);
  }

  /**
   For every well-formed coinbase and every split around an extranonce inside its scriptSig, with any
   scriptSig bytes left on either side, the verdict on the zero-filled parts is the verdict on the
   transaction's own outputs.
   */
  lemma SplitCoinbaseVerdict(mode: Mode, tx: Tx, prefix: seq<byte>, extranonce: seq<byte>, suffix: seq<byte>)
    requires WellFormed(tx) && SplitInside(tx, prefix, extranonce, suffix)
    ensures CheckBytes(mode, prefix + Zeros(|extranonce|) + suffix) == Checked(Validate(mode, tx.outputs))
  {
    SerializedAround(tx);
    var script := tx.inputs[0].scriptSig;
    var filled := FilledScript(BeforeScriptSig(tx), script, AfterScriptSig(tx), prefix, extranonce, suffix);
    Refilled(tx, filled);
    RoundTrip(WithScriptSig(tx, filled));
  }

  /** The transaction is cut around an extranonce that lies inside the first scriptSig. */
  predicate SplitInside(tx: Tx, prefix: seq<byte>, extranonce: seq<byte>, suffix: seq<byte>)
    requires WellFormed(tx)
  {
    && tx.inputs != [] && Serialize(tx) == prefix + extranonce + suffix
    && |BeforeScriptSig(tx)| <= |prefix|
    && |prefix| + |extranonce| <= |BeforeScriptSig(tx)| + |tx.inputs[0].scriptSig|
  }

  /**
   `validate_coinbase_tx_parts`: the buffer grows by the prefix, the zeros and the suffix. Whatever the
   miner's extranonce is going to be, the verdict is that on the finished transaction's outputs; and a
   decode error means that no transaction has these bytes.
   */
  method ValidateTxParts(mode: Mode, prefix: seq<byte>, suffix: seq<byte>, extranonceSize: nat)
    returns (r: PartsVerdict)
    ensures forall tx, extranonce | WellFormed(tx) && |extranonce| == extranonceSize ::
              SplitInside(tx, prefix, extranonce, suffix) ==> r == Checked(Validate(mode, tx.outputs))
    ensures forall tx | WellFormed(tx) ::
              Serialize(tx) == prefix + Zeros(extranonceSize) + suffix ==> r == Checked(Validate(mode, tx.outputs))
    ensures r.DecodeError? ==>
              forall tx | WellFormed(tx) :: Serialize(tx) != prefix + Zeros(extranonceSize) + suffix
    ensures r.Checked? ==>
              exists tx | WellFormed(tx) :: Serialize(tx) == prefix + Zeros(extranonceSize) + suffix
  {
    var coinbase := prefix;
    coinbase := coinbase + Zeros(extranonceSize);
    coinbase := coinbase + suffix;
    r := CheckBytes(mode, coinbase);
    if r.Checked? {
      DecodesOnlySerializations(coinbase);
    }
    forall tx | WellFormed(tx) && Serialize(tx) == coinbase ensures r == Checked(Validate(mode, tx.outputs)) {
      RoundTrip(tx);
    }
    forall tx, extranonce |
      WellFormed(tx) && |extranonce| == extranonceSize && SplitInside(tx, prefix, extranonce, suffix)
      ensures r == Checked(Validate(mode, tx.outputs))
    {
      SplitCoinbaseVerdict(mode, tx, prefix, extranonce, suffix);
    }
  }

  /** The scriptSig with zeros where the extranonce was. */
  lemma FilledScript(before: seq<byte>, script: seq<byte>, after: seq<byte>,
                     prefix: seq<byte>, mid: seq<byte>, suffix: seq<byte>)
    returns (filled: seq<byte>)
    requires before + script + after == prefix + mid + suffix
    requires |before| <= |prefix| && |prefix| + |mid| <= |before| + |script|
    ensures |filled| == |script| && prefix + Zeros(|mid|) + suffix == before + filled + after
  {
    var k := |prefix| - |before|;
    filled := script[..k] + Zeros(|mid|) + script[k + |mid|..];
    SplitParts(before, script, after, prefix, mid, suffix);
    RegroupParts(before, script[..k], Zeros(|mid|), script[k + |mid|..], after);
  }

  lemma SplitParts(before: seq<byte>, script: seq<byte>, after: seq<byte>,
                   prefix: seq<byte>, mid: seq<byte>, suffix: seq<byte>)
    requires before + script + after == prefix + mid + suffix
    requires |before| <= |prefix| && |prefix| + |mid| <= |before| + |script|
    ensures var k := |prefix| - |before|;
            prefix == before + script[..k] && suffix == script[k + |mid|..] + after
  {
    var all := before + script + after;
    var k := |prefix| - |before|;
    assert prefix == all[..|prefix|];
    assert suffix == all[|prefix| + |mid|..];
  }
}
