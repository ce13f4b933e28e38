/** What the fee arithmetic means in shared units, how it behaves under splitting, and why the
    Token-2022 pre-fee calculation is the exact inverse of the post-fee one. */
module FeeTheory {
  import opened Primitives
  import opened Arithmetic
  import opened Fees

  // ---- Dust and decimals ------------------------------------------------------------------------------

  /** Removing dust rounds down to the greatest multiple of the rate; shared units round-trip. */
  lemma DustFreeIsWholeUnits(rate: Rate, amountLd: U64)
    ensures RemoveDust(rate, amountLd) == rate * Ld2Sd(rate, amountLd)
    ensures RemoveDust(rate, amountLd) <= amountLd < RemoveDust(rate, amountLd) + rate
    ensures forall k: nat | rate * k <= amountLd :: rate * k <= RemoveDust(rate, amountLd)
    ensures Sd2Ld(rate, Ld2Sd(rate, amountLd)) == Ok(RemoveDust(rate, amountLd))
    ensures RemoveDust(rate, RemoveDust(rate, amountLd)) == RemoveDust(rate, amountLd)
  {
    FloorBounds(amountLd, rate);
    var units := amountLd / rate;
    assert units * rate == rate * units;
    FloorOfMultiple(units, rate);
    forall k: nat | rate * k <= amountLd
      ensures rate * k <= rate * units
    {
      assert rate * k < rate * (units + 1);
      MulCancel(k, units + 1, rate);
      MulMonotone(k, units, rate);
    }
  }

  /** The conversions are inverse on every amount that fits, and `sd2ld` fails exactly on the rest. */
  lemma SharedUnitsRoundTrip(rate: Rate, amountSd: U64)
    ensures Sd2Ld(rate, amountSd).Ok? <==> rate * amountSd <= U64_MAX
    ensures Sd2Ld(rate, amountSd).Ok? ==>
              && Sd2Ld(rate, amountSd).value == rate * amountSd
              && Ld2Sd(rate, Sd2Ld(rate, amountSd).value) == amountSd
              && RemoveDust(rate, Sd2Ld(rate, amountSd).value) == Sd2Ld(rate, amountSd).value
  {
    assert amountSd * rate == rate * amountSd;
    MulMonotone(0, amountSd, rate);
    FloorOfMultiple(amountSd, rate);
  }

  // ---- The fee in shared units --------------------------------------------------------------------------

  /** The fee taken from k shared units. */
  function SharedFee(k: nat, bps: nat): int {
    k * bps / 10_000
  }

  lemma FeeInRange(k: nat, bps: nat)
    requires bps <= 10_000
    ensures 0 <= SharedFee(k, bps) <= k
  {
    MulMonotone(0, bps, k);
    MulMonotone(bps, 10_000, k);
    FloorMonotone(0, k * bps, 10_000);
    FloorMonotone(k * bps, 10_000 * k, 10_000);
    FloorOfMultiple(k, 10_000);
    FloorOfMultiple(0, 10_000);
  }

  /** A fee computed in local units and cleaned of dust is the fee computed in shared units: neither the
      truncating cast nor the inner floor is ever visible. */
  lemma FeeOfWholeUnits(rate: Rate, k: nat, bps: U16)
    requires bps <= MAX_FEE_BASIS_POINTS && rate * k <= U64_MAX
    ensures RemoveDust(rate, CalculateFee(rate * k, bps)) == rate * SharedFee(k, bps)
  {
    var whole := rate * k;
    MulMonotone(0, k, rate);
    FeeInRange(k, bps);
    FeeInRange(whole, bps);
    if bps == 0 || whole == 0 {
      if whole == 0 && k > 0 { MulMonotone(1, k, rate); }
      assert SharedFee(k, bps) == 0;
      FloorOfMultiple(0, rate);
    } else {
      assert whole * bps == rate * (k * bps);
      var raw := whole * bps / 10_000;
      assert CalculateFee(whole, bps) == raw by { FloorUnique(raw, U64_MAX + 1, 0); FloorBounds(raw, U64_MAX + 1); }
      NestedFloor(rate, k * bps, 10_000);
      FloorBounds(raw, rate);
    }
  }

  /** A Native quote in shared units: the fee rounds down, what is received rounds up, nothing underflows. */
  lemma NativeInSharedUnits(rate: Rate, amountLd: U64, bps: U16)
    requires bps <= MAX_FEE_BASIS_POINTS
    ensures var k := Ld2Sd(rate, amountLd);
            && 0 <= k * (10_000 - bps)
            && NativeAmounts(rate, amountLd, bps).Ok?
            && var a := NativeAmounts(rate, amountLd, bps).value;
            && a.sentLd == rate * k
            && a.feeLd == rate * SharedFee(k, bps)
            && a.receivedLd == rate * CeilDiv(k * (10_000 - bps), 10_000)
            && a.receivedLd + a.feeLd == a.sentLd
  {
    var k := Ld2Sd(rate, amountLd);
    assert RemoveDust(rate, amountLd) == rate * k by { DustFreeIsWholeUnits(rate, amountLd); }
    SharesAddUp(k, bps);
    FeeOfWholeUnits(rate, k, bps);
    var fee, received := SharedFee(k, bps), CeilDiv(k * (10_000 - bps), 10_000);
    Distribute(rate, fee, received);
    MulMonotone(0, received, rate);
  }

  lemma SharesAddUp(k: nat, bps: nat)
    requires bps <= 10_000
    ensures 0 <= k * (10_000 - bps)
    ensures 0 <= SharedFee(k, bps) && 0 <= CeilDiv(k * (10_000 - bps), 10_000)
    ensures SharedFee(k, bps) + CeilDiv(k * (10_000 - bps), 10_000) == k
  {
    FeeInRange(k, bps);
    FloorCeilComplement(k, bps, 10_000);
  }

  /** Sending more never yields a smaller fee or a smaller amount received. */
  lemma NativeMonotone(rate: Rate, less: U64, more: U64, bps: U16)
    requires bps <= MAX_FEE_BASIS_POINTS && less <= more
    ensures NativeAmounts(rate, less, bps).Ok? && NativeAmounts(rate, more, bps).Ok?
    ensures var a, b := NativeAmounts(rate, less, bps).value, NativeAmounts(rate, more, bps).value;
            a.sentLd <= b.sentLd && a.feeLd <= b.feeLd && a.receivedLd <= b.receivedLd
  {
    NativeInSharedUnits(rate, less, bps);
    NativeInSharedUnits(rate, more, bps);
    var k, m := Ld2Sd(rate, less), Ld2Sd(rate, more);
    FloorMonotone(less, more, rate);
    MulMonotone(k, m, bps);
    MulMonotone(k, m, 10_000 - bps);
    FloorMonotone(k * bps, m * bps, 10_000);
    FloorMonotone(k * (10_000 - bps) + 9_999, m * (10_000 - bps) + 9_999, 10_000);
    MulMonotone(k, m, rate);
    MulMonotone(SharedFee(k, bps), SharedFee(m, bps), rate);
    MulMonotone(CeilDiv(k * (10_000 - bps), 10_000), CeilDiv(m * (10_000 - bps), 10_000), rate);
  }

  /** Below 100 % a send of at least one unit delivers at least one unit, and what it delivers converts to
      shared units and back without loss or overflow. */
  lemma NativeDelivers(rate: Rate, amountLd: U64, bps: U16)
    requires bps < MAX_FEE_BASIS_POINTS
    ensures NativeAmounts(rate, amountLd, bps).Ok?
    ensures var a := NativeAmounts(rate, amountLd, bps).value;
            && (a.sentLd > 0 ==> Ld2Sd(rate, a.receivedLd) >= 1)
            && Sd2Ld(rate, Ld2Sd(rate, a.receivedLd)) == Ok(a.receivedLd)
            && rate * Ld2Sd(rate, a.receivedLd) == a.receivedLd
  {
    NativeInSharedUnits(rate, amountLd, bps);
    var k := Ld2Sd(rate, amountLd);
    var units := CeilDiv(k * (10_000 - bps), 10_000);
    CeilBounds(k * (10_000 - bps), 10_000);
    FloorOfMultiple(units, rate);
    var received := NativeAmounts(rate, amountLd, bps).value.receivedLd;
    DustFreeIsWholeUnits(rate, received);
    FloorBounds(received, rate);
    if NativeAmounts(rate, amountLd, bps).value.sentLd > 0 {
      assert k != 0;
      MulMonotone(1, k, 10_000 - bps);
    }
  }

  // ---- Splitting a send -----------------------------------------------------------------------------------

  function Total(amounts: seq<U64>): nat {
    if amounts == [] then 0 else amounts[0] + Total(amounts[1..])
  }

  function TotalFee(rate: Rate, amounts: seq<U64>, bps: U16): nat
    requires bps <= MAX_FEE_BASIS_POINTS
  {
    if amounts == [] then 0
    else
      NativeInSharedUnits(rate, amounts[0], bps);
      NativeAmounts(rate, amounts[0], bps).value.feeLd + TotalFee(rate, amounts[1..], bps)
  }

  ghost predicate DustFree(rate: Rate, amounts: seq<U64>) {
    forall a | a in amounts :: a % rate == 0
  }

  /** Joining k units to a group of n units adds up their fees, give or take one unit. */
  lemma FeeSuperadditive(k: nat, n: nat, bps: nat)
    ensures SharedFee(k, bps) + SharedFee(n, bps) <= SharedFee(k + n, bps) <= SharedFee(k, bps) + SharedFee(n, bps) + 1
  {
    assert (k + n) * bps == k * bps + n * bps;
    FloorSuperadditive(k * bps, n * bps, 10_000);
  }

  lemma DustFreeInUnits(rate: Rate, a: U64, bps: U16) returns (k: nat)
    requires bps <= MAX_FEE_BASIS_POINTS && a % rate == 0
    ensures a == rate * k && 0 <= SharedFee(k, bps)
    ensures NativeAmounts(rate, a, bps).Ok? && NativeAmounts(rate, a, bps).value.feeLd == rate * SharedFee(k, bps)
  {
    k := Ld2Sd(rate, a);
    DustFreeIsWholeUnits(rate, a);
    NativeInSharedUnits(rate, a, bps);
    FeeInRange(k, bps);
  }

  lemma {:induction false} SplitInUnits(rate: Rate, amounts: seq<U64>, bps: U16) returns (units: nat, fees: nat)
    requires bps <= MAX_FEE_BASIS_POINTS && DustFree(rate, amounts)
    ensures Total(amounts) == rate * units
    ensures TotalFee(rate, amounts, bps) == rate * fees
    ensures amounts != [] ==> fees <= SharedFee(units, bps) <= fees + |amounts| - 1
    ensures amounts == [] ==> fees == units == 0
  {
    units, fees := 0, 0;
    if amounts == [] { return; }
    var a, rest := amounts[0], amounts[1..];
    assert a in amounts;
    forall x | x in rest ensures x % rate == 0 { assert x in amounts; }
    var k := DustFreeInUnits(rate, a, bps);
    var restUnits, restFees := SplitInUnits(rate, rest, bps);
    var fee := SharedFee(k, bps);
    units, fees := k + restUnits, fee + restFees;
    FeeSuperadditive(k, restUnits, bps);
    assert SharedFee(0, bps) == 0;
    Distribute(rate, k, restUnits);
    Distribute(rate, fee, restFees);
  }

  lemma FeeOfWholeSend(rate: Rate, total: U64, units: nat, bps: U16)
    requires bps <= MAX_FEE_BASIS_POINTS && total == rate * units
    ensures TotalFee(rate, [total], bps) == rate * SharedFee(units, bps)
  {
    FloorOfMultiple(units, rate);
    NativeInSharedUnits(rate, total, bps);
    assert [total][1..] == [];
  }

  /** Splitting a dust-free total into n dust-free sends at one rate never raises the total fee, and lowers
      it by at most n - 1 shared units. */
  lemma SplittingSavesAtMost(rate: Rate, total: U64, parts: seq<U64>, bps: U16)
    requires bps <= MAX_FEE_BASIS_POINTS && parts != []
    requires DustFree(rate, parts) && Total(parts) == total
    ensures TotalFee(rate, parts, bps) <= TotalFee(rate, [total], bps)
    ensures TotalFee(rate, [total], bps) <= TotalFee(rate, parts, bps) + rate * (|parts| - 1)
  {
    var units, fees := SplitInUnits(rate, parts, bps);
    FeeOfWholeSend(rate, total, units, bps);
    var fee, n := SharedFee(units, bps), |parts| - 1;
    MulMonotone(fees, fee, rate);
    MulMonotone(fee, fees + n, rate);
    assert rate * (fees + n) == rate * fees + rate * n;
  }

  // ---- Token-2022: pre-fee and post-fee are inverse ---------------------------------------------------------

  /** Uncapped, what arrives is the floor of the untaxed share; the cap can only raise it. */
  lemma PostFeeShape(f: TransferFee, pre: nat)
    requires Legal(f)
    ensures 0 <= PostFeeAmount(f, pre) <= pre
    ensures var share := pre * (10_000 - f.basisPoints) / 10_000;
            f.basisPoints > 0 ==>
              PostFeeAmount(f, pre) == if pre - f.maximumFee > share then pre - f.maximumFee else share
  {
    var b: nat := f.basisPoints;
    FloorCeilComplement(pre, 10_000 - b, 10_000);
    assert 10_000 - (10_000 - b) == b;
    FeeInRange(pre, 10_000 - b);
    if pre == 0 { assert 0 * (10_000 - b) == 0; }
  }

  /** The least amount whose untaxed share reaches p: ceil(10000 p / d). */
  lemma ShareThreshold(p: nat, d: nat, pre: nat)
    requires 0 < d <= 10_000
    ensures pre * d / 10_000 >= p <==> pre >= CeilDiv(p * 10_000, d)
    ensures pre == CeilDiv(p * 10_000, d) ==> pre * d / 10_000 == p
    ensures p <= CeilDiv(p * 10_000, d)
  {
    var raw := CeilDiv(p * 10_000, d);
    CeilBounds(p * 10_000, d);
    FloorBounds(pre * d, 10_000);
    var share := pre * d / 10_000;
    if pre >= raw {
      MulMonotone(raw, pre, d);
      MulCancel(p, share + 1, 10_000);
    } else {
      MulMonotone(pre + 1, raw, d);
      assert d * (pre + 1) == d * pre + d;
    }
    if pre == raw { FloorUnique(pre * d, 10_000, p); }
    if raw < p {
      MulMonotone(raw, p - 1, d);
      MulMonotone(d, 10_000, p - 1);
      MulMonotone(0, p, 10_000 - d);
    }
  }

  /** The amount the pre-fee calculation aims for, in unbounded integers. */
  function LeastPreFee(f: TransferFee, p: nat): nat
    requires Legal(f)
  {
    if f.basisPoints == 0 || p == 0 then p
    else if f.basisPoints == MAX_FEE_BASIS_POINTS then p + f.maximumFee
    else
      ShareThreshold(p, 10_000 - f.basisPoints, p);
      Min(p + f.maximumFee, CeilDiv(p * 10_000, 10_000 - f.basisPoints))
  }

  lemma LeastPreFeeIsLeast(f: TransferFee, p: nat, pre: nat)
    requires Legal(f)
    ensures PostFeeAmount(f, LeastPreFee(f, p)) == p
    ensures PostFeeAmount(f, pre) >= p <==> pre >= LeastPreFee(f, p)
  {
    var least := LeastPreFee(f, p);
    PostFeeShape(f, least);
    PostFeeShape(f, pre);
    if f.basisPoints == 0 || p == 0 {
    } else if f.basisPoints == MAX_FEE_BASIS_POINTS {
      assert least * 0 == 0 == pre * 0;
    } else {
      ShareThreshold(p, 10_000 - f.basisPoints, least);
      ShareThreshold(p, 10_000 - f.basisPoints, pre);
    }
  }

  /** None of the checked 128-bit steps can fail; only the final fit into 64 bits can. */
  lemma PreFeeComputesLeast(f: TransferFee, p: U64)
    requires Legal(f)
    ensures CalculatePreFeeAmount(f, p)
         == if LeastPreFee(f, p) <= U64_MAX then Some(LeastPreFee(f, p)) else None
  {
    if 0 < f.basisPoints < MAX_FEE_BASIS_POINTS {
      ShareThreshold(p, 10_000 - f.basisPoints, p);
    }
  }

  /** `calculate_pre_fee_amount(p)` is the least amount whose post-fee value reaches p, that value is
      exactly p, and it answers None exactly when no 64-bit amount reaches p. */
  lemma PreFeeInvertsPostFee(f: TransferFee, p: U64)
    requires Legal(f)
    ensures CalculatePreFeeAmount(f, p).Some? ==>
              var x := CalculatePreFeeAmount(f, p).value;
              PostFeeAmount(f, x) == p && forall y: nat | y < x :: PostFeeAmount(f, y) < p
    ensures CalculatePreFeeAmount(f, p).None? <==> forall y: U64 :: PostFeeAmount(f, y) < p
  {
    PreFeeComputesLeast(f, p);
    var x := LeastPreFee(f, p);
    LeastPreFeeIsLeast(f, p, x);
    forall y: nat | y < x ensures PostFeeAmount(f, y) < p { LeastPreFeeIsLeast(f, p, y); }
    if x <= U64_MAX { var witness64: U64 := x; assert PostFeeAmount(f, witness64) == p; }
  }

  /** Above 100 % the calculation refuses every positive amount and nothing else. */
  lemma PreFeeAboveWhole(f: TransferFee, p: U64)
    requires !Legal(f)
    ensures CalculatePreFeeAmount(f, p) == if p == 0 then Some(0) else None
  {
  }

  // ---- The Adapter branch ---------------------------------------------------------------------------------

  function Arrives(transferFee: Option<TransferFee>, pre: nat): int {
    match transferFee
    case Some(f) => PostFeeAmount(f, pre)
    case None => pre
  }

  /** What must be sent for `gross` to arrive. */
  function MustSend(transferFee: Option<TransferFee>, gross: nat): nat
    requires transferFee.Some? ==> Legal(transferFee.value)
  {
    match transferFee
    case Some(f) => LeastPreFee(f, gross)
    case None => gross
  }

  lemma MustSendInverts(transferFee: Option<TransferFee>, gross: U64, pre: nat)
    requires transferFee.Some? ==> Legal(transferFee.value)
    ensures Arrives(transferFee, MustSend(transferFee, gross)) == gross
    ensures 0 <= Arrives(transferFee, pre) <= pre
    ensures gross <= Arrives(transferFee, pre) ==> MustSend(transferFee, gross) <= pre
    ensures transferFee.Some? && MustSend(transferFee, gross) <= U64_MAX ==>
              CalculatePreFeeAmount(transferFee.value, gross) == Some(MustSend(transferFee, gross))
  {
    if transferFee.Some? {
      LeastPreFeeIsLeast(transferFee.value, gross, pre);
      PostFeeShape(transferFee.value, pre);
      PreFeeComputesLeast(transferFee.value, gross);
    }
  }

  lemma GrossInSharedUnits(rate: Rate, k: nat, bps: U16)
    requires bps <= MAX_FEE_BASIS_POINTS && rate * k <= U64_MAX
    ensures var fee := RemoveDust(rate, CalculateFee(rate * k, bps));
            && fee <= rate * k && fee % rate == 0 && (rate * k - fee) % rate == 0
  {
    FeeOfWholeUnits(rate, k, bps);
    FeeInRange(k, bps);
    var units := SharedFee(k, bps);
    MulMonotone(units, k, rate);
    FloorOfMultiple(units, rate);
    FloorOfMultiple(k - units, rate);
    Distribute(rate, units, k - units);
  }

  lemma AdapterSends(rate: Rate, amountLd: U64, transferFee: Option<TransferFee>, bps: U16)
    requires transferFee.Some? ==> Legal(transferFee.value)
    requires bps <= MAX_FEE_BASIS_POINTS
    ensures 0 <= Arrives(transferFee, amountLd) <= amountLd
    ensures var gross := RemoveDust(rate, Arrives(transferFee, amountLd));
            var fee := RemoveDust(rate, CalculateFee(gross, bps));
            && MustSend(transferFee, gross) <= amountLd
            && fee <= gross && fee % rate == 0 && (gross - fee) % rate == 0
            && AdapterAmounts(rate, amountLd, transferFee, bps) == Ok(Amounts(MustSend(transferFee, gross), gross - fee, fee))
  {
    MustSendInverts(transferFee, 0, amountLd);
    var arriving := Arrives(transferFee, amountLd);
    DustFreeIsWholeUnits(rate, arriving);
    MustSendInverts(transferFee, RemoveDust(rate, arriving), amountLd);
    GrossInSharedUnits(rate, Ld2Sd(rate, arriving), bps);
  }

  /** An Adapter quote never fails, never asks for more than was offered, delivers exactly what it accounts
      for, and is stable: quoting the returned amount again gives the same answer. */
  lemma AdapterIsStable(rate: Rate, amountLd: U64, transferFee: Option<TransferFee>, bps: U16)
    requires transferFee.Some? ==> Legal(transferFee.value)
    requires bps <= MAX_FEE_BASIS_POINTS
    ensures AdapterAmounts(rate, amountLd, transferFee, bps).Ok?
    ensures var a := AdapterAmounts(rate, amountLd, transferFee, bps).value;
            && a.sentLd <= amountLd
            && Arrives(transferFee, a.sentLd) == a.receivedLd + a.feeLd
            && a.receivedLd % rate == 0 && a.feeLd % rate == 0
            && AdapterAmounts(rate, a.sentLd, transferFee, bps) == Ok(a)
  {
    AdapterSends(rate, amountLd, transferFee, bps);
    var gross := RemoveDust(rate, Arrives(transferFee, amountLd));
    MustSendInverts(transferFee, gross, amountLd);
    DustFreeIsWholeUnits(rate, Arrives(transferFee, amountLd));
    AdapterSends(rate, MustSend(transferFee, gross), transferFee, bps);
  }

  /** The amounts of the Adapter branch, exactly: of what arrives the whole shared units count; the fee is the
      share of them, rounded down; the rest is received; and what is sent is the least amount of which that many
      arrive. */
  lemma AdapterInSharedUnits(rate: Rate, amountLd: U64, transferFee: Option<TransferFee>, bps: U16)
    requires transferFee.Some? ==> Legal(transferFee.value)
    requires bps <= 10000
    ensures var k := Arrives(transferFee, amountLd) / rate;
            && 0 <= k && ComputeFeeAndAdjustAmount(Adapter, rate, amountLd, transferFee, bps).Ok?
            && var a := ComputeFeeAndAdjustAmount(Adapter, rate, amountLd, transferFee, bps).value;
            && a.feeLd == rate * (k * bps / 10000)
            && a.receivedLd + a.feeLd == rate * k
            && Arrives(transferFee, a.sentLd) == rate * k
            && forall less: nat | less < a.sentLd :: Arrives(transferFee, less) < rate * k
  {
    AdapterSends(rate, amountLd, transferFee, bps);
    var arriving := Arrives(transferFee, amountLd);
    var gross := RemoveDust(rate, arriving);
    FloorBounds(arriving, rate);
    DustFreeIsWholeUnits(rate, arriving);
    SharesOfGross(rate, arriving, bps);
    MustSendInverts(transferFee, gross, amountLd);
    forall less: nat | less < MustSend(transferFee, gross) ensures Arrives(transferFee, less) < gross {
      MustSendInverts(transferFee, gross, less);
    }
  }

  lemma SharesOfGross(rate: Rate, arriving: U64, bps: U16)
    requires bps <= 10000
    ensures 0 <= arriving / rate && RemoveDust(rate, arriving) == rate * (arriving / rate)
    ensures RemoveDust(rate, CalculateFee(RemoveDust(rate, arriving), bps)) == rate * (arriving / rate * bps / 10000)
  {
    FloorBounds(arriving, rate);
    DustFreeIsWholeUnits(rate, arriving);
    FeeOfWholeUnits(rate, Ld2Sd(rate, arriving), bps);
  }
}
