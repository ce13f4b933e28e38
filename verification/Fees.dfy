/** Decimal conversion (programs/paye-oft/src/state/oft.rs) and the fee arithmetic of a send
    (programs/paye-oft/src/instructions/quote_send.rs), in 64- and 128-bit integers. */
module Fees {
  import opened Primitives
  import Arithmetic

  /** `ld2sd_rate`: a power of ten that fits in 64 bits. Only its positivity matters to the arithmetic. */
  type Rate = r: int | 1 <= r <= U64_MAX witness 1

  const MAX_FEE_BASIS_POINTS: U16 := 10_000

  function Ld2Sd(rate: Rate, amountLd: U64): U64 {
    Arithmetic.FloorBounds(amountLd, rate);
    Arithmetic.FloorMonotone(0, amountLd, rate);
    Arithmetic.FloorOfMultiple(0, rate);
    Quotient(amountLd, rate);
    amountLd / rate
  }

  lemma Quotient(n: nat, d: nat)
    requires 0 < d
    ensures 0 <= n / d <= n
  {
    Arithmetic.FloorBounds(n, d);
    if n / d < 0 { Arithmetic.MulMonotone(n / d, -1, d); }
    else { Arithmetic.MulMonotone(1, d, n / d); }
  }

  function Sd2Ld(rate: Rate, amountSd: U64): Result<U64> {
    var product := amountSd * rate;
    if 0 <= product <= U64_MAX then Ok(product) else Err(ArithmeticOverflow)
  }

  function RemoveDust(rate: Rate, amountLd: U64): U64 {
    Quotient(amountLd, rate);
    Arithmetic.FloorBounds(amountLd, rate);
    amountLd - amountLd % rate
  }

  /** A peer's override, or else the store's default. */
  function BasisPointsInForce(defaultFeeBps: U16, feeBps: Option<U16>): U16 {
    feeBps.GetOr(defaultFeeBps)
  }

  /** `calculate_fee`, whose final cast to u64 truncates. */
  function CalculateFee(preFeeAmount: U64, bps: U16): U64 {
    if bps == 0 || preFeeAmount == 0 then 0
    else (preFeeAmount * bps / 10_000) % (U64_MAX + 1)
  }

  datatype Amounts = Amounts(sentLd: U64, receivedLd: U64, feeLd: U64)

  /** The Native branch of `compute_fee_and_adjust_amount`. The final subtraction is overflow-checked. */
  function NativeAmounts(rate: Rate, amountLd: U64, bps: U16): Result<Amounts> {
    var sentLd := RemoveDust(rate, amountLd);
    var feeLd := RemoveDust(rate, CalculateFee(sentLd, bps));
    if feeLd <= sentLd then Ok(Amounts(sentLd, sentLd - feeLd, feeLd)) else Err(Panic)
  }

  // ---- Token-2022 transfer fees ---------------------------------------------------------------------

  datatype TransferFee = TransferFee(basisPoints: U16, maximumFee: U64)

  ghost predicate Legal(f: TransferFee) {
    f.basisPoints <= MAX_FEE_BASIS_POINTS
  }

  /** The fee the token program withholds from a transfer of `pre`, for every natural number. */
  function WithheldFee(f: TransferFee, pre: nat): nat {
    if f.basisPoints == 0 || pre == 0 then 0
    else
      Arithmetic.MulMonotone(0, pre, f.basisPoints);
      Arithmetic.CeilBounds(pre * f.basisPoints, 10_000);
      Min(f.maximumFee, Arithmetic.CeilDiv(pre * f.basisPoints, 10_000))
  }

  /** The token program's `calculate_post_fee_amount`: what arrives of a transfer of `pre`. */
  function PostFeeAmount(f: TransferFee, pre: nat): int {
    pre - WithheldFee(f, pre)
  }

  /** `ceil_div` in checked 128-bit arithmetic. */
  function CeilDivU128(n: U128, d: U128): Option<nat> {
    if n + d > U128_MAX || n + d - 1 < 0 || d == 0 then None
    else
      Quotient(n + d - 1, d);
      Some((n + d - 1) / d)
  }

  /** `calculate_pre_fee_amount`, branch by branch. */
  function CalculatePreFeeAmount(f: TransferFee, postFeeAmount: U64): Option<U64> {
    if f.basisPoints == 0 then Some(postFeeAmount)
    else if postFeeAmount == 0 then Some(0)
    else if f.basisPoints == MAX_FEE_BASIS_POINTS then CheckedAdd(f.maximumFee, postFeeAmount)
    else
      var numerator: U128 := postFeeAmount * 10_000;
      if f.basisPoints > MAX_FEE_BASIS_POINTS then None
      else
        var denominator: U128 := MAX_FEE_BASIS_POINTS - f.basisPoints;
        match CeilDivU128(numerator, denominator)
        case None => None
        case Some(raw) =>
          if raw < postFeeAmount then None
          else if raw - postFeeAmount >= f.maximumFee then CheckedAdd(postFeeAmount, f.maximumFee)
          else if raw <= U64_MAX then Some(raw)
          else None
  }

  function CheckedAdd(a: U64, b: U64): Option<U64> {
    if a + b <= U64_MAX then Some(a + b) else None
  }

  /** The Adapter branch of `compute_fee_and_adjust_amount`, for a mint with or without transfer fees. */
  function AdapterAmounts(rate: Rate, amountLd: U64, transferFee: Option<TransferFee>, bps: U16): Result<Amounts> {
    var arriving :=
      match transferFee
      case Some(f) => PostFeeAmount(f, amountLd)
      case None => amountLd;
    if !(0 <= arriving <= U64_MAX) then Err(InvalidArgument)
    else
      var grossLd := RemoveDust(rate, arriving);
      var sent :=
        match transferFee
        case Some(f) => CalculatePreFeeAmount(f, grossLd)
        case None => Some(grossLd);
      match sent
      case None => Err(InvalidArgument)
      case Some(sentLd) =>
        var feeLd := RemoveDust(rate, CalculateFee(grossLd, bps));
        if feeLd <= grossLd then Ok(Amounts(sentLd, grossLd - feeLd, feeLd)) else Err(Panic)
  }

  datatype OftType = Native | Adapter

  function ComputeFeeAndAdjustAmount(oftType: OftType, rate: Rate, amountLd: U64,
                                     transferFee: Option<TransferFee>, bps: U16): Result<Amounts>
  {
    if oftType.Adapter? then AdapterAmounts(rate, amountLd, transferFee, bps)
    else NativeAmounts(rate, amountLd, bps)
  }
}
