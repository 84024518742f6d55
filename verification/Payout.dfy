/**
 Payout modes: building coinbase outputs, validating them, and comparing modes.

 Machine arithmetic is that of a release build: `u64` products and sums wrap.
 */
module Payout {
  import opened Bytes

  const U64 := 0x1_0000_0000_0000_0000
  const MAX_MONEY := 21_000_000 * 100_000_000
  const MIN_LEGACY_SOLO_PAYOUT_PERCENTAGE := 90

  type u64 = v: int | 0 <= v < U64
  type u8 = v: int | 0 <= v < 256
  type Script = seq<byte>

  datatype TxOut = TxOut(value: u64, script: Script)

  datatype Mode =
    | Solo(address: string, script: Script)
    | LegacySolo(address: string, script: Script)
    | Donate(percentage: u8, address: string, script: Script)
    | FullDonation

  function WrapMul(a: u64, b: u64): u64 {
    a * b % U64
  }

  function SaturatingSub(a: u64, b: u64): u64 {
    if a >= b then a - b else 0
  }

  predicate IsOpReturn(s: Script) {
    s != [] && s[0] == 0x6a
  }

  // ---------------------------------------------------------------- building

  function PoolPart(total: u64, percentage: u8): u64 {
    WrapMul(total, percentage) / 100
  }

  function CoinbaseOutputs(mode: Mode, total: u64, pool: Script): seq<TxOut> {
    match mode
    case Solo(_, script) => [TxOut(total, script)]
    case LegacySolo(_, script) => [TxOut(total, script)]
    case Donate(p, _, script) =>
      [TxOut(PoolPart(total, p), pool), TxOut(SaturatingSub(total, PoolPart(total, p)), script)]
    case FullDonation => [TxOut(total, pool)]
  }

  predicate HasSameCoinbaseOutputsAs(a: Mode, b: Mode, pool: Script) {
    CoinbaseOutputs(a, 100, pool) == CoinbaseOutputs(b, 100, pool)
  }

  // ---------------------------------------------------------------- validating

  function SpendableValues(outputs: seq<TxOut>): seq<u64> {
    if outputs == [] then []
    else
      var rest := SpendableValues(outputs[..|outputs| - 1]);
      var o := outputs[|outputs| - 1];
      if IsOpReturn(o.script) then rest else rest + [o.value]
  }

  function MinerValues(outputs: seq<TxOut>, script: Script): seq<u64> {
    if outputs == [] then []
    else
      var rest := MinerValues(outputs[..|outputs| - 1], script);
      var o := outputs[|outputs| - 1];
      if !IsOpReturn(o.script) && o.script == script then rest + [o.value] else rest
  }

  function WrapSum(values: seq<u64>): u64 {
    if values == [] then 0 else (WrapSum(values[..|values| - 1]) + values[|values| - 1]) % U64
  }

  datatype Verdict =
    | Accepted
    | NoSpendableOutputs
    | PayoutMismatch(address: string, expected: u64, percentage: u8, total: u64, actual: u64)

  function ExpectedMinerSats(mode: Mode, total: u64): u64 {
    match mode
    case Donate(p, _, _) => SaturatingSub(total, PoolPart(total, p))
    case FullDonation => 0
    case _ => total
  }

  /** `div_ceil` of the wrapped product. */
  function ExpectedLegacySats(total: u64): u64 {
    (WrapMul(total, MIN_LEGACY_SOLO_PAYOUT_PERCENTAGE) + 99) / 100
  }

  function ExpectedPercentage(mode: Mode): u8 {
    match mode
    case Donate(p, _, _) => (100 - p) % 256
    case FullDonation => 0
    case _ => 100
  }

  /** The decision on the two sums. */
  function Judge(mode: Mode, total: u64, actual: u64): Verdict {
    if mode.FullDonation? then Accepted
    else if total == 0 then NoSpendableOutputs
    else if mode.LegacySolo? then
      var expected := ExpectedLegacySats(total);
      if actual < expected
      then PayoutMismatch(mode.address, expected, MIN_LEGACY_SOLO_PAYOUT_PERCENTAGE, total, actual) else Accepted
    else
      var expected := ExpectedMinerSats(mode, total);
      if actual != expected
      then PayoutMismatch(mode.address, expected, ExpectedPercentage(mode), total, actual) else Accepted
  }

  /** `validate_coinbase_outputs`. */
  function Validate(mode: Mode, outputs: seq<TxOut>): Verdict {
    if mode.FullDonation? then Accepted
    else Judge(mode, WrapSum(SpendableValues(outputs)), WrapSum(MinerValues(outputs, mode.script)))
  }

  // ---------------------------------------------------------------- exact sums

  /** What an output adds to the spendable total, and to the amount paid to `script`. */
  function Spendable(o: TxOut): nat {
    if IsOpReturn(o.script) then 0 else o.value
  }

  function Value(o: TxOut): nat {
    o.value
  }

  function ToScript(script: Script): TxOut -> nat {
    (o: TxOut) => if !IsOpReturn(o.script) && o.script == script then o.value else 0
  }

  function Sum(outputs: seq<TxOut>, w: TxOut -> nat): nat {
    if outputs == [] then 0 else Sum(outputs[..|outputs| - 1], w) + w(outputs[|outputs| - 1])
  }

  function SpendableSum(outputs: seq<TxOut>): nat {
    Sum(outputs, Spendable)
  }

  function MinerSum(outputs: seq<TxOut>, script: Script): nat {
    Sum(outputs, ToScript(script))
  }

  lemma WrapAdd(x: nat, v: nat)
    ensures (x % U64 + v) % U64 == (x + v) % U64
  {
  }

  lemma WrapSnoc(values: seq<u64>, v: u64, exact: nat)
    requires WrapSum(values) == exact % U64
    ensures WrapSum(values + [v]) == (exact + v) % U64
  {
    assert (values + [v])[..|values|] == values;
    WrapAdd(exact, v);
  }

  lemma {:induction false} SpendableSumWraps(outputs: seq<TxOut>)
    ensures WrapSum(SpendableValues(outputs)) == SpendableSum(outputs) % U64
  {
    if outputs != [] {
      var n := |outputs| - 1;
      SpendableSumWraps(outputs[..n]);
      WrapSnoc(SpendableValues(outputs[..n]), outputs[n].value, SpendableSum(outputs[..n]));
    }
  }

  lemma {:induction false} MinerSumWraps(outputs: seq<TxOut>, script: Script)
    ensures WrapSum(MinerValues(outputs, script)) == MinerSum(outputs, script) % U64
  {
    if outputs != [] {
      var n := |outputs| - 1;
      MinerSumWraps(outputs[..n], script);
      WrapSnoc(MinerValues(outputs[..n], script), outputs[n].value, MinerSum(outputs[..n], script));
    }
  }

  /** The validator's sums are the exact ones modulo 2^64. */
  lemma WrapSumIsExact(mode: Mode, outputs: seq<TxOut>)
    requires !mode.FullDonation?
    ensures Validate(mode, outputs) == Judge(mode, SpendableSum(outputs) % U64, MinerSum(outputs, mode.script) % U64)
  {
    SpendableSumWraps(outputs);
    MinerSumWraps(outputs, mode.script);
  }

  lemma {:induction false} SumConcat(a: seq<TxOut>, b: seq<TxOut>, w: TxOut -> nat)
    ensures Sum(a + b, w) == Sum(a, w) + Sum(b, w)
  {
    if b == [] {
      assert a + b == a;
    } else {
      var n := |b| - 1;
      assert (a + b)[..|a| + n] == a + b[..n];
      SumConcat(a, b[..n], w);
    }
  }

  lemma SumOne(o: TxOut, w: TxOut -> nat)
    ensures Sum([o], w) == w(o)
  {
    assert [o][..0] == [];
  }

  lemma Cancel<T>(a: multiset<T>, b: multiset<T>, x: T)
    requires a + multiset{x} == b + multiset{x}
    ensures a == b
  {
    assert a == a + multiset{x} - multiset{x};
    assert b == b + multiset{x} - multiset{x};
  }

  /** Sums do not see the order of the outputs. */
  lemma {:induction false} SumPermutes(a: seq<TxOut>, b: seq<TxOut>, w: TxOut -> nat)
    requires multiset(a) == multiset(b)
    ensures Sum(a, w) == Sum(b, w)
    decreases |a|
  {
    if a == [] {
      assert |b| == |multiset(b)| == 0;
    } else {
      var n := |a| - 1;
      var x := a[n];
      assert x in multiset(b);
      var j :| 0 <= j < |b| && b[j] == x;
      var rest := b[..j] + b[j + 1..];
      assert a == a[..n] + [x];
      assert b == b[..j] + [x] + b[j + 1..];
      assert multiset(b) == multiset(rest) + multiset{x};
      assert multiset(a) == multiset(a[..n]) + multiset{x};
      Cancel(multiset(a[..n]), multiset(rest), x);
      SumPermutes(a[..n], rest, w);
      SumConcat(b[..j] + [x], b[j + 1..], w);
      SumConcat(b[..j], [x], w);
      SumConcat(b[..j], b[j + 1..], w);
      SumOne(x, w);
    }
  }

  /** The outputs that count. */
  function SpendableOutputs(outputs: seq<TxOut>): seq<TxOut> {
    if outputs == [] then []
    else
      var rest := SpendableOutputs(outputs[..|outputs| - 1]);
      var o := outputs[|outputs| - 1];
      if IsOpReturn(o.script) then rest else rest + [o]
  }

  lemma {:induction false} OnlySpendableCounts(outputs: seq<TxOut>, script: Script)
    ensures SpendableSum(SpendableOutputs(outputs)) == SpendableSum(outputs)
    ensures MinerSum(SpendableOutputs(outputs), script) == MinerSum(outputs, script)
  {
    if outputs != [] {
      var n := |outputs| - 1;
      var o := outputs[n];
      OnlySpendableCounts(outputs[..n], script);
      if !IsOpReturn(o.script) {
        SumConcat(SpendableOutputs(outputs[..n]), [o], Spendable);
        SumConcat(SpendableOutputs(outputs[..n]), [o], ToScript(script));
        SumOne(o, Spendable);
        SumOne(o, ToScript(script));
      }
    }
  }

  lemma SameSumsSameVerdict(mode: Mode, a: seq<TxOut>, b: seq<TxOut>)
    requires !mode.FullDonation? ==>
               SpendableSum(a) == SpendableSum(b) && MinerSum(a, mode.script) == MinerSum(b, mode.script)
    ensures Validate(mode, a) == Validate(mode, b)
  {
    if !mode.FullDonation? {
      WrapSumIsExact(mode, a);
      WrapSumIsExact(mode, b);
    }
  }

  /**
   The verdict depends only on the multiset of spendable outputs, for every mode and all values,
   wrapping sums included; so neither reordering nor OP_RETURN outputs matter.
   */
  lemma VerdictIgnoresOrderAndOpReturn(mode: Mode, a: seq<TxOut>, b: seq<TxOut>)
    requires multiset(SpendableOutputs(a)) == multiset(SpendableOutputs(b))
    ensures Validate(mode, a) == Validate(mode, b)
  {
    if !mode.FullDonation? {
      OnlySpendableCounts(a, mode.script);
      OnlySpendableCounts(b, mode.script);
      SumPermutes(SpendableOutputs(a), SpendableOutputs(b), Spendable);
      SumPermutes(SpendableOutputs(a), SpendableOutputs(b), ToScript(mode.script));
    }
    SameSumsSameVerdict(mode, a, b);
  }

  /** Paying an amount in two outputs to the same script is the same as paying it in one. */
  lemma VerdictIgnoresSplitting(mode: Mode, a: seq<TxOut>, script: Script, v: u64, v': u64, b: seq<TxOut>)
    requires v + v' < U64
    ensures Validate(mode, a + [TxOut(v, script), TxOut(v', script)] + b)
         == Validate(mode, a + [TxOut(v + v', script)] + b)
  {
    var one, two := [TxOut(v + v', script)], [TxOut(v, script), TxOut(v', script)];
    if !mode.FullDonation? {
      SplitSum(a, two, one, b, Spendable);
      SplitSum(a, two, one, b, ToScript(mode.script));
    }
    SameSumsSameVerdict(mode, a + two + b, a + one + b);
  }

  lemma SplitSum(a: seq<TxOut>, two: seq<TxOut>, one: seq<TxOut>, b: seq<TxOut>, w: TxOut -> nat)
    requires |two| == 2 && |one| == 1 && w(two[0]) + w(two[1]) == w(one[0])
    ensures Sum(a + two + b, w) == Sum(a + one + b, w)
  {
    SumConcat(a + two, b, w);
    SumConcat(a + one, b, w);
    SumConcat(a, two, w);
    SumConcat(a, one, w);
    assert two == [two[0]] + [two[1]];
    SumConcat([two[0]], [two[1]], w);
    SumOne(two[0], w);
    SumOne(two[1], w);
    assert one == [one[0]];
    SumOne(one[0], w);
  }

  // ---------------------------------------------------------------- builder and validator

  lemma MulBound(a: nat, x: nat, b: nat, y: nat)
    requires a <= x && b <= y
    ensures a * b <= x * y
  {
    assert a * b <= x * b;
    assert x * b <= x * y;
  }

  lemma WrapMulSmall(a: u64, b: u64)
    requires a * b < U64
    ensures WrapMul(a, b) == a * b
  {
    ModSmall(a * b);
  }

  lemma ModSmall(x: nat)
    requires x < U64
    ensures x % U64 == x
  {
  }

  lemma FloorWithin(total: nat, p: nat)
    requires p <= 100
    ensures total * p / 100 <= total
  {
    MulBound(total, total, p, 100);
  }

  lemma ModBelow(x: nat)
    ensures x % U64 <= x && (x >= U64 ==> x % U64 <= x - U64)
  {
  }

  /** Up to `MAX_MONEY` no product of the code overflows. */
  lemma NoOverflow(total: u64, percentage: u8)
    requires total <= MAX_MONEY
    ensures total * percentage < U64 && WrapMul(total, percentage) == total * percentage
    ensures percentage <= 100 ==> PoolPart(total, percentage) <= total
  {
    MulBound(total, MAX_MONEY, percentage, 255);
    WrapMulSmall(total, percentage);
    if percentage <= 100 {
      FloorWithin(total, percentage);
    }
  }

  /** Overflow or not, the pool's part stays within the total. */
  lemma PoolPartWithin(total: u64, percentage: u8)
    requires percentage <= 100
    ensures PoolPart(total, percentage) <= total
  {
    MulBound(total, total, percentage, 100);
    ModBelow(total * percentage);
  }

  lemma TwoOutputs(o: TxOut, o': TxOut, w: TxOut -> nat)
    ensures Sum([o, o'], w) == w(o) + w(o')
  {
    assert [o, o'][..1] == [o];
    SumOne(o, w);
  }

  /** What is paid to whom and in which order, in exact numbers, as long as the product does not overflow. */
  lemma BuiltAmounts(mode: Mode, total: u64, pool: Script)
    requires mode.Donate? ==> mode.percentage <= 100 && total * mode.percentage < U64
    ensures CoinbaseOutputs(mode, total, pool)
         == match mode
            case Donate(p, _, script) =>
              [TxOut(total * p / 100, pool), TxOut(total - total * p / 100, script)]
            case FullDonation => [TxOut(total, pool)]
            case Solo(_, script) => [TxOut(total, script)]
            case LegacySolo(_, script) => [TxOut(total, script)]
  {
    if mode.Donate? {
      WrapMulSmall(total, mode.percentage);
      FloorWithin(total, mode.percentage);
    }
  }

  /** Built outputs add up to the total. */
  lemma BuilderConserves(mode: Mode, total: u64, pool: Script)
    requires mode.Donate? ==> mode.percentage <= 100
    ensures Sum(CoinbaseOutputs(mode, total, pool), Value) == total
  {
    if mode.Donate? {
      PoolPartWithin(total, mode.percentage);
      var outs := CoinbaseOutputs(mode, total, pool);
      TwoOutputs(outs[0], outs[1], Value);
    } else {
      SumOne(CoinbaseOutputs(mode, total, pool)[0], Value);
    }
  }

  // ---------------------------------------------------------------- what acceptance means

  /** So many percent of the total, rounded up. */
  function Percent(total: nat, percent: nat): nat {
    (total * percent + 99) / 100
  }

  /** The mode pays a miner, and its percentage is one. */
  predicate Proper(mode: Mode) {
    !mode.FullDonation? && (mode.Donate? ==> mode.percentage <= 100)
  }

  /** What the mode promises the miner out of `total`. */
  predicate PaysMiner(mode: Mode, total: nat, miner: nat)
    requires mode.Donate? ==> mode.percentage <= 100
  {
    match mode
    case Solo(_, _) => miner == total
    case LegacySolo(_, _) => 100 * miner >= 90 * total
    case Donate(p, _, _) => miner == Percent(total, 100 - p)
    case FullDonation => true
  }

  /** What the code multiplies the total by. */
  function Factor(mode: Mode): nat {
    match mode
    case Solo(_, _) => 1
    case LegacySolo(_, _) => MIN_LEGACY_SOLO_PAYOUT_PERCENTAGE
    case Donate(p, _, _) => p
    case FullDonation => 0
  }

  /** Neither the sum of the outputs nor the product the mode computes from it overflows. */
  predicate Fits(mode: Mode, total: nat) {
    total < U64 && total * Factor(mode) < U64
  }

  lemma MoneyFits(mode: Mode, total: u64)
    requires total <= MAX_MONEY && Proper(mode)
    ensures Fits(mode, total)
  {
    MulBound(total, MAX_MONEY, Factor(mode), 100);
  }

  lemma FloorAndCeil(total: nat, p: nat)
    requires p <= 100
    ensures total - total * p / 100 == Percent(total, 100 - p)
  {
    assert total * (100 - p) == 100 * total - total * p;
  }

  /** The amount the validator compares with. */
  function Expected(mode: Mode, total: u64): u64 {
    if mode.LegacySolo? then ExpectedLegacySats(total) else ExpectedMinerSats(mode, total)
  }

  lemma ExpectedWithin(mode: Mode, total: u64)
    requires Proper(mode) && total > 0
    ensures Expected(mode, total) <= total
  {
    ModBelow(total * Factor(mode));
  }

  /** When nothing overflows, what the code expects is the least payment the mode promises. */
  lemma LeastPayment(mode: Mode, total: u64)
    requires Proper(mode) && Fits(mode, total)
    ensures var percentage := if mode.LegacySolo? then 90 else ExpectedPercentage(mode);
            Expected(mode, total) == Percent(total, percentage)
    ensures PaysMiner(mode, total, Expected(mode, total))
    ensures forall miner: nat :: PaysMiner(mode, total, miner) ==> Expected(mode, total) <= miner
  {
    match mode
    case Solo(_, _) => HundredPercent(total);
    case LegacySolo(_, _) =>
      WrapMulSmall(total, MIN_LEGACY_SOLO_PAYOUT_PERCENTAGE);
      LeastNinety(total);
    case Donate(p, _, _) => DonationRest(total, p);
  }

  /** What is left after the pool's part is the rounded-up rest. */
  lemma DonationRest(total: u64, p: u8)
    requires p <= 100 && total * p < U64
    ensures SaturatingSub(total, PoolPart(total, p)) == Percent(total, 100 - p)
  {
    WrapMulSmall(total, p);
    FloorWithin(total, p);
    FloorAndCeil(total, p);
  }

  lemma HundredPercent(total: nat)
    ensures Percent(total, 100) == total
  {
  }

  /** The least amount that is at least 90 percent. */
  lemma LeastNinety(total: nat)
    ensures 100 * Percent(total, 90) >= 90 * total
    ensures forall miner: nat :: 100 * miner >= 90 * total ==> Percent(total, 90) <= miner
  {
  }

  /** When the product overflows, what the code expects is not what the mode promises. */
  lemma OverflowMisses(mode: Mode, total: u64)
    requires Proper(mode) && !Fits(mode, total)
    ensures total > 0 && !PaysMiner(mode, total, Expected(mode, total))
  {
    var product := total * Factor(mode);
    ModBelow(product);
    if mode.Donate? {
      PoolPartWithin(total, mode.percentage);
      FloorAndCeil(total, mode.percentage);
      FloorWithin(total, mode.percentage);
      HundredApart(product % U64, product);
    }
  }

  lemma JudgedExactly(mode: Mode, total: u64, miner: u64)
    requires Proper(mode) && Fits(mode, total)
    ensures Judge(mode, total, miner) == Accepted <==> total > 0 && PaysMiner(mode, total, miner)
  {
    LeastPayment(mode, total);
  }

  lemma {:induction false} MinerWithinSpendable(outputs: seq<TxOut>, script: Script)
    ensures MinerSum(outputs, script) <= SpendableSum(outputs)
  {
    if outputs != [] {
      MinerWithinSpendable(outputs[..|outputs| - 1], script);
    }
  }

  /** The verdict is right about these outputs: they pass exactly when they pay what the mode promises. */
  predicate JudgedRight(mode: Mode, outputs: seq<TxOut>)
    requires Proper(mode)
  {
    Validate(mode, outputs) == Accepted
    <==> SpendableSum(outputs) > 0 && PaysMiner(mode, SpendableSum(outputs), MinerSum(outputs, mode.script))
  }

  /**
   Acceptance means payment: when nothing overflows, a set of outputs that passes pays the miner's script
   all spendable value, the rounded-up share, or at least 90 percent, and every set that does so passes.
   */
  lemma AcceptedIffPaid(mode: Mode, outputs: seq<TxOut>)
    requires Proper(mode) && Fits(mode, SpendableSum(outputs))
    ensures JudgedRight(mode, outputs)
  {
    var total, miner := SpendableSum(outputs), MinerSum(outputs, mode.script);
    MinerWithinSpendable(outputs, mode.script);
    WrapSumIsExact(mode, outputs);
    ModSmall(total);
    ModSmall(miner);
    JudgedExactly(mode, total, miner);
  }

  const MOST: u64 := U64 - 1

  /** Any amount paid to one script, in outputs of at most 2^64 - 1. */
  function Pay(amount: nat, script: Script): seq<TxOut> {
    if amount <= MOST then [TxOut(amount, script)] else Pay(amount - MOST, script) + [TxOut(MOST, script)]
  }

  /** The weight counts outputs to this script in full, or not at all. */
  ghost predicate Weighs(w: TxOut -> nat, script: Script, pays: bool) {
    forall v: u64 :: w(TxOut(v, script)) == if pays then v else 0
  }

  lemma {:induction false} PaySums(amount: nat, script: Script, w: TxOut -> nat, pays: bool)
    requires Weighs(w, script, pays)
    ensures Sum(Pay(amount, script), w) == if pays then amount else 0
  {
    if amount <= MOST {
      SumOne(TxOut(amount, script), w);
    } else {
      var rest, last := Pay(amount - MOST, script), TxOut(MOST, script);
      PaySums(amount - MOST, script, w, pays);
      SumSnoc(rest, last, w);
    }
  }

  lemma SumSnoc(outputs: seq<TxOut>, o: TxOut, w: TxOut -> nat)
    ensures Sum(outputs + [o], w) == Sum(outputs, w) + w(o)
  {
    assert (outputs + [o])[..|outputs|] == outputs;
  }

  lemma PaidTo(amount: nat, to: Script, script: Script)
    requires !IsOpReturn(to)
    ensures SpendableSum(Pay(amount, to)) == amount
    ensures MinerSum(Pay(amount, to), script) == if to == script then amount else 0
  {
    PaySums(amount, to, Spendable, true);
    PaySums(amount, to, ToScript(script), to == script);
  }

  lemma SumsConcat(a: seq<TxOut>, b: seq<TxOut>, script: Script)
    ensures SpendableSum(a + b) == SpendableSum(a) + SpendableSum(b)
    ensures MinerSum(a + b, script) == MinerSum(a, script) + MinerSum(b, script)
  {
    SumConcat(a, b, Spendable);
    SumConcat(a, b, ToScript(script));
  }

  /** Outputs of a given spendable sum of which the miner gets a given part. */
  lemma OutputsFor(script: Script, total: nat, miner: nat) returns (outputs: seq<TxOut>)
    requires !IsOpReturn(script) && miner <= total
    ensures SpendableSum(outputs) == total && MinerSum(outputs, script) == miner
  {
    var other: Script := if script == [] then [0] else [];
    outputs := Pay(miner, script) + Pay(total - miner, other);
    SumsConcat(Pay(miner, script), Pay(total - miner, other), script);
    PaidTo(miner, script, script);
    PaidTo(total - miner, other, script);
  }

  /** A sum that wraps to 0 is refused even when all is paid. */
  lemma WrappedToZero(mode: Mode, total: nat) returns (miner: nat)
    requires Proper(mode) && total % U64 == 0
    ensures miner <= total && PaysMiner(mode, total, miner)
    ensures forall actual: u64 :: Judge(mode, total % U64, actual) != Accepted
  {
    miner := total;
    if mode.Donate? {
      FloorAndCeil(total, mode.percentage);
      FloorWithin(total, mode.percentage);
      miner := total - total * mode.percentage / 100;
    }
  }

  lemma ExpectedIsAccepted(mode: Mode, total: u64)
    requires Proper(mode) && total > 0
    ensures Judge(mode, total, Expected(mode, total)) == Accepted
  {
  }

  /** What suffices for 90 percent of the wrapped sum does not for the whole. */
  lemma LegacyExpectsTooLittle(t: u64, total: nat)
    requires total >= t + U64
    ensures 100 * ExpectedLegacySats(t) < 90 * total
  {
    ModBelow(t * MIN_LEGACY_SOLO_PAYOUT_PERCENTAGE);
  }

  lemma ModShift(x: u64)
    ensures (x + U64) % U64 == x
  {
  }

  /** Once the sum reaches 2^64, some payment within it is judged wrongly: it counts modulo 2^64. */
  lemma WrappedSumMisses(mode: Mode, total: nat) returns (miner: nat)
    requires Proper(mode) && total >= U64
    ensures miner <= total
    ensures (Judge(mode, total % U64, miner % U64) == Accepted) != PaysMiner(mode, total, miner)
  {
    var t := total % U64;
    ModBelow(total);
    if t == 0 {
      miner := WrappedToZero(mode, total);
    } else {
      var e := Expected(mode, t);
      ExpectedWithin(mode, t);
      ExpectedIsAccepted(mode, t);
      ModSmall(e);
      ModShift(e);
      LegacyExpectsTooLittle(t, total);
      miner := if mode.Donate? && PaysMiner(mode, total, e) then e + U64 else e;
    }
  }

  lemma Misjudged(mode: Mode, total: nat) returns (outputs: seq<TxOut>)
    requires Proper(mode) && !IsOpReturn(mode.script) && !Fits(mode, total)
    ensures SpendableSum(outputs) == total && !JudgedRight(mode, outputs)
  {
    var miner;
    if total >= U64 {
      miner := WrappedSumMisses(mode, total);
    } else {
      OverflowMisses(mode, total);
      ExpectedWithin(mode, total);
      miner := Expected(mode, total);
      ModSmall(total);
      ModSmall(miner);
    }
    outputs := OutputsFor(mode.script, total, miner);
    WrapSumIsExact(mode, outputs);
  }

  /** Every set of outputs with this spendable sum is judged rightly. */
  ghost predicate AlwaysRight(mode: Mode, total: nat)
    requires Proper(mode)
  {
    forall outputs :: SpendableSum(outputs) == total ==> JudgedRight(mode, outputs)
  }

  /**
   The condition is exact: for every mode and every spendable sum, the validator is right about all
   outputs with that sum if and only if neither the sum nor the mode's product overflows.
   */
  lemma AcceptanceIsExact(mode: Mode, total: nat)
    requires Proper(mode) && !IsOpReturn(mode.script)
    ensures AlwaysRight(mode, total) <==> Fits(mode, total)
  {
    if Fits(mode, total) {
      forall outputs | SpendableSum(outputs) == total ensures JudgedRight(mode, outputs) {
        AcceptedIffPaid(mode, outputs);
      }
    } else {
      var outputs := Misjudged(mode, total);
    }
  }

  /** Two outputs of 2^63 to the pool cancel, and one satoshi of 2^64 + 1 passes for all of it. */
  lemma WrappedSumFoolsSolo(address: string, script: Script, pool: Script)
    requires !IsOpReturn(script) && !IsOpReturn(pool) && script != pool
    ensures var mode := Solo(address, script);
            var outputs := [TxOut(U64 / 2, pool), TxOut(U64 / 2, pool), TxOut(1, script)];
            && Validate(mode, outputs) == Accepted
            && SpendableSum(outputs) == U64 + 1 && MinerSum(outputs, script) == 1
  {
    var mode := Solo(address, script);
    var two := [TxOut(U64 / 2, pool), TxOut(U64 / 2, pool)];
    var outputs := [TxOut(U64 / 2, pool), TxOut(U64 / 2, pool), TxOut(1, script)];
    assert outputs[..2] == two;
    TwoOutputs(two[0], two[1], Spendable);
    TwoOutputs(two[0], two[1], ToScript(script));
    WrapSumIsExact(mode, outputs);
  }

  /** Just above 2^64 / 90. */
  const WRAPPING_TOTAL: u64 := 204_963_823_041_217_241

  lemma LegacyProductWraps()
    ensures WRAPPING_TOTAL == U64 / 90 + 1 && ExpectedLegacySats(WRAPPING_TOTAL) == 1
  {
    assert WRAPPING_TOTAL * 90 == U64 + 74;
  }

  /** At that total the legacy product wraps to 74, and one satoshi passes for 90 percent. */
  lemma WrappedProductFoolsLegacy(address: string, script: Script, pool: Script)
    requires !IsOpReturn(script) && !IsOpReturn(pool) && script != pool
    ensures var mode := LegacySolo(address, script);
            var outputs := [TxOut(WRAPPING_TOTAL - 1, pool), TxOut(1, script)];
            && Validate(mode, outputs) == Accepted
            && SpendableSum(outputs) == WRAPPING_TOTAL && MinerSum(outputs, script) == 1
  {
    var outputs := [TxOut(WRAPPING_TOTAL - 1, pool), TxOut(1, script)];
    TwoOutputs(outputs[0], outputs[1], Spendable);
    TwoOutputs(outputs[0], outputs[1], ToScript(script));
    WrapSumIsExact(LegacySolo(address, script), outputs);
    LegacyProductWraps();
    ModSmall(WRAPPING_TOTAL);
  }

  /** What is wrong, as reported: nothing spendable, or the true sums and the least amount that would do. */
  ghost predicate Truthful(mode: Mode, outputs: seq<TxOut>, r: Verdict)
    requires Proper(mode)
  {
    var total := SpendableSum(outputs);
    if total == 0 then r == NoSpendableOutputs
    else
      && r.PayoutMismatch? && r.address == mode.address
      && r.total == total && r.actual == MinerSum(outputs, mode.script)
      && r.expected == Percent(total, r.percentage)
      && PaysMiner(mode, total, r.expected)
      && forall miner: nat :: PaysMiner(mode, total, miner) ==> r.expected <= miner
  }

  /** A refusal is truthful if and only if neither the sum nor the mode's product overflows. */
  lemma RefusalIsTruthful(mode: Mode, outputs: seq<TxOut>)
    requires Proper(mode) && Validate(mode, outputs) != Accepted
    ensures Truthful(mode, outputs, Validate(mode, outputs)) <==> Fits(mode, SpendableSum(outputs))
  {
    var total, miner := SpendableSum(outputs), MinerSum(outputs, mode.script);
    MinerWithinSpendable(outputs, mode.script);
    WrapSumIsExact(mode, outputs);
    ModBelow(total);
    if total < U64 {
      ModSmall(total);
      ModSmall(miner);
      if Fits(mode, total) {
        LeastPayment(mode, total);
      } else {
        OverflowMisses(mode, total);
      }
    }
  }

  // ---------------------------------------------------------------- builder and validator agree

  /** The two sums of built outputs when both scripts are spendable. */
  lemma BuiltSums(mode: Mode, total: u64, pool: Script)
    requires Proper(mode) && !IsOpReturn(pool) && !IsOpReturn(mode.script)
    ensures SpendableSum(CoinbaseOutputs(mode, total, pool)) == total
    ensures MinerSum(CoinbaseOutputs(mode, total, pool), mode.script)
         == if mode.Donate? && pool != mode.script then total - PoolPart(total, mode.percentage) else total
  {
    var outs := CoinbaseOutputs(mode, total, pool);
    if mode.Donate? {
      PoolPartWithin(total, mode.percentage);
      TwoOutputs(outs[0], outs[1], Spendable);
      TwoOutputs(outs[0], outs[1], ToScript(mode.script));
    } else {
      SumOne(outs[0], Spendable);
      SumOne(outs[0], ToScript(mode.script));
    }
  }

  /**
   Built outputs against the validator, exactly, for every reward whether its products overflow or not:
   with spendable scripts only a donation whose pool and miner share one script can fail, and it fails
   exactly when the pool's part is not zero.
   */
  lemma BuiltVerdict(mode: Mode, total: u64, pool: Script)
    requires 1 <= total && !IsOpReturn(pool)
    requires !mode.FullDonation? ==> Proper(mode) && !IsOpReturn(mode.script)
    ensures Validate(mode, CoinbaseOutputs(mode, total, pool)) == Accepted
       <==> (mode.Donate? && pool == mode.script ==> PoolPart(total, mode.percentage) == 0)
  {
    if !mode.FullDonation? {
      var outs := CoinbaseOutputs(mode, total, pool);
      BuiltSums(mode, total, pool);
      WrapSumIsExact(mode, outs);
      ModSmall(total);
      ModSmall(MinerSum(outs, mode.script));
      ExpectedWithin(mode, total);
    }
  }

  /**
   What is built passes validation, for every mode and every reward, when the scripts are spendable and
   distinct.
   */
  lemma BuilderPassesValidator(mode: Mode, total: u64, pool: Script)
    requires 1 <= total && !IsOpReturn(pool)
    requires !mode.FullDonation? ==> Proper(mode) && !IsOpReturn(mode.script)
    requires mode.Donate? ==> pool != mode.script
    ensures Validate(mode, CoinbaseOutputs(mode, total, pool)) == Accepted
  {
    BuiltVerdict(mode, total, pool);
  }

  // ---------------------------------------------------------------- comparing modes

  lemma PoolPartTellsPercentages(total: u64, p: u8, q: u8)
    requires 100 <= total && total * 255 < U64 && p < q
    ensures PoolPart(total, p) < PoolPart(total, q)
  {
    PoolPartExact(total, p);
    PoolPartExact(total, q);
    Distributes(total, p, q - p);
    MulBound(100, total, 1, q - p);
    HundredApart(total * p, total * q);
  }

  lemma PoolPartExact(total: u64, p: u8)
    requires total * 255 < U64
    ensures PoolPart(total, p) == total * p / 100
  {
    MulBound(total, total, p, 255);
    WrapMulSmall(total, p);
  }

  lemma Distributes(x: nat, a: nat, b: nat)
    ensures x * (a + b) == x * a + x * b
  {
  }

  lemma HundredApart(x: nat, y: nat)
    requires x + 100 <= y
    ensures x / 100 < y / 100
  {
  }

  /** Comparing at any one reference of at least 100 satoshis that cannot overflow decides equality everywhere. */
  lemma ReferenceDecides(a: Mode, b: Mode, pool: Script, reference: u64, total: u64)
    requires 100 <= reference && reference * 255 < U64
    requires CoinbaseOutputs(a, reference, pool) == CoinbaseOutputs(b, reference, pool)
    ensures CoinbaseOutputs(a, total, pool) == CoinbaseOutputs(b, total, pool)
  {
    var x, y := CoinbaseOutputs(a, reference, pool), CoinbaseOutputs(b, reference, pool);
    assert x[0] == y[0];
    if a.Donate? && b.Donate? {
      assert x[1] == y[1];
      if a.percentage < b.percentage {
        PoolPartTellsPercentages(reference, a.percentage, b.percentage);
      } else if b.percentage < a.percentage {
        PoolPartTellsPercentages(reference, b.percentage, a.percentage);
      }
    }
  }

  /**
   The 100-satoshi comparison is complete: it holds exactly when the two modes build the same outputs
   for every total, and any larger reference that cannot overflow gives the same answer.
   */
  lemma ComparisonIsComplete(a: Mode, b: Mode, pool: Script, reference: u64)
    requires 100 <= reference && reference * 255 < U64
    ensures HasSameCoinbaseOutputsAs(a, b, pool)
       <==> forall total: u64 :: CoinbaseOutputs(a, total, pool) == CoinbaseOutputs(b, total, pool)
    ensures HasSameCoinbaseOutputsAs(a, b, pool)
       <==> CoinbaseOutputs(a, reference, pool) == CoinbaseOutputs(b, reference, pool)
  {
    if HasSameCoinbaseOutputsAs(a, b, pool) {
      forall total: u64 ensures CoinbaseOutputs(a, total, pool) == CoinbaseOutputs(b, total, pool) {
        ReferenceDecides(a, b, pool, 100, total);
      }
    }
    if CoinbaseOutputs(a, reference, pool) == CoinbaseOutputs(b, reference, pool) {
      ReferenceDecides(a, b, pool, reference, 100);
    }
  }

  /** Below 100 the pool's parts of the percentages 0 to 100 cannot all differ. */
  lemma {:induction false} SomePartRepeats(reference: u64, p: u8) returns (q: u8)
    requires reference < 100 && p <= 100 && PoolPart(reference, p) < p
    ensures q < p && PoolPart(reference, q) == PoolPart(reference, q + 1)
  {
    PoolPartExact(reference, p);
    PoolPartExact(reference, p - 1);
    Distributes(reference, p - 1, 1);
    if PoolPart(reference, p - 1) == PoolPart(reference, p) {
      q := p - 1;
    } else {
      q := SomePartRepeats(reference, p - 1);
    }
  }

  /** So every reference below 100 takes two different donations for equal. */
  lemma BlindBelowHundred(reference: u64, pool: Script, address: string, script: Script) returns (q: u8)
    requires reference < 100
    ensures q < 100
    ensures var a, b := Donate(q, address, script), Donate(q + 1, address, script);
            CoinbaseOutputs(a, reference, pool) == CoinbaseOutputs(b, reference, pool)
            && !HasSameCoinbaseOutputsAs(a, b, pool)
  {
    PoolPartExact(reference, 100);
    q := SomePartRepeats(reference, 100);
    var a, b := Donate(q, address, script), Donate(q + 1, address, script);
    PoolPartTellsPercentages(100, q, q + 1);
    assert CoinbaseOutputs(a, 100, pool)[0] != CoinbaseOutputs(b, 100, pool)[0];
  }

  /** Equal outputs at this reference mean equal outputs at every total. */
  ghost predicate Decides(reference: u64, pool: Script) {
    forall a, b :: CoinbaseOutputs(a, reference, pool) == CoinbaseOutputs(b, reference, pool) ==> SameAlways(a, b, pool)
  }

  ghost predicate SameAlways(a: Mode, b: Mode, pool: Script) {
    forall total: u64 :: CoinbaseOutputs(a, total, pool) == CoinbaseOutputs(b, total, pool)
  }

  /** Exactly the references from 100 up decide, among those whose products cannot overflow. */
  lemma HundredIsLeastReference(reference: u64, pool: Script)
    requires reference * 255 < U64
    ensures Decides(reference, pool) <==> reference >= 100
  {
    if reference >= 100 {
      forall a, b | CoinbaseOutputs(a, reference, pool) == CoinbaseOutputs(b, reference, pool)
        ensures SameAlways(a, b, pool)
      {
        forall total: u64 ensures CoinbaseOutputs(a, total, pool) == CoinbaseOutputs(b, total, pool) {
          ReferenceDecides(a, b, pool, reference, total);
        }
      }
    } else {
      var q := BlindBelowHundred(reference, pool, "", []);
      assert !SameAlways(Donate(q, "", []), Donate(q + 1, "", []), pool);
    }
  }

  /** For any reference at all, overflow included: it decides exactly when no two percentages share a pool part. */
  lemma DecidesExactly(reference: u64, pool: Script)
    ensures Decides(reference, pool)
       <==> forall p: u8, q: u8 :: p < q ==> PoolPart(reference, p) != PoolPart(reference, q)
  {
    if forall p: u8, q: u8 :: p < q ==> PoolPart(reference, p) != PoolPart(reference, q) {
      forall a, b | CoinbaseOutputs(a, reference, pool) == CoinbaseOutputs(b, reference, pool)
        ensures SameAlways(a, b, pool)
      {
        var x, y := CoinbaseOutputs(a, reference, pool), CoinbaseOutputs(b, reference, pool);
        assert |x| == |y| && x[0] == y[0] && x[|x| - 1] == y[|y| - 1];
      }
    } else {
      var p: u8, q: u8 :| p < q && PoolPart(reference, p) == PoolPart(reference, q);
      var a, b := Donate(p, "", []), Donate(q, "", []);
      PoolPartTellsPercentages(100, p, q);
      assert CoinbaseOutputs(a, 100, pool)[0] != CoinbaseOutputs(b, 100, pool)[0];
      assert CoinbaseOutputs(a, reference, pool) == CoinbaseOutputs(b, reference, pool) && !SameAlways(a, b, pool);
    }
  }

  /** A reference whose products overflow can be blind too: at 2^63 even percentages wrap alike. */
  lemma BlindReferences(pool: Script, address: string, script: Script)
    ensures var a, b := Donate(2, address, script), Donate(4, address, script);
            && CoinbaseOutputs(a, U64 / 2, pool) == CoinbaseOutputs(b, U64 / 2, pool)
            && !HasSameCoinbaseOutputsAs(a, b, pool)
  {
    assert PoolPart(100, 2) == 2 && PoolPart(100, 4) == 4;
    var c, d := Donate(2, address, script), Donate(4, address, script);
    assert CoinbaseOutputs(c, 100, pool)[0] != CoinbaseOutputs(d, 100, pool)[0];
  }
}
