/** Machine integers, byte strings, and the result types shared by every module.
    Integers are subset types of `int`: wherever the program saturates, truncates or checks for
    overflow, the model spells it out. */
module Primitives {

  const U64_MAX: int := 0xFFFF_FFFF_FFFF_FFFF
  const U128_MAX: int := 0xFFFF_FFFF_FFFF_FFFF_FFFF_FFFF_FFFF_FFFF
  const I64_MAX: int := 0x7FFF_FFFF_FFFF_FFFF

  type U8 = n: int | 0 <= n < 0x100
  type U16 = n: int | 0 <= n < 0x1_0000
  type U32 = n: int | 0 <= n < 0x1_0000_0000
  type U64 = n: int | 0 <= n <= U64_MAX
  type U128 = n: int | 0 <= n <= U128_MAX
  type I64 = n: int | -I64_MAX - 1 <= n <= I64_MAX

  type Bytes = seq<U8>
  const ZEROS: Bytes := [0, 0, 0, 0, 0, 0, 0, 0, 0, 0, 0, 0, 0, 0, 0, 0, 0, 0, 0, 0, 0, 0, 0, 0, 0, 0, 0, 0, 0, 0, 0, 0]

  type Bytes32 = s: Bytes | |s| == 32 witness ZEROS
  type Pubkey = Bytes32

  /** `[0u8; 32]`, which is also `Pubkey::default()`. */
  const ZERO32: Bytes32 := ZEROS

  function Min(a: int, b: int): int {
    if a <= b then a else b
  }

  /** Time in seconds since 1970. A clock reading before that counts as 0. */
  function Seconds(at: I64): U64 {
    if at < 0 then 0 else at
  }

  function SaturatingAdd(a: U64, b: U64): U64 {
    Min(a + b, U64_MAX)
  }

  function SaturatingMul(a: U64, b: U64): U64 {
    var product := a * b;
    if 0 <= product <= U64_MAX then product else U64_MAX
  }

  datatype Option<+T> = None | Some(value: T) {
    function GetOr(default: T): T {
      match this
      case Some(v) => v
      case None => default
    }
  }

  /** `u64::try_from` */
  function TryIntoU64(n: int): Option<U64> {
    if 0 <= n <= U64_MAX then Some(n) else None
  }

  /** The program's own error codes, followed by the failures that come from outside it. */
  datatype Error =
    | Unauthorized
    | InvalidSender
    | InvalidDecimals
    | SlippageExceeded
    | InvalidTokenDest
    | RateLimitExceeded
    | InvalidFee
    | InvalidMintAuthority
    | Paused
    | InvalidMessage
    | ArithmeticOverflow
      // an Anchor account constraint without an error code of its own, or a missing account
    | AccountConstraint
      // a checked operation or slice index that panics
    | Panic
      // `ProgramError::InvalidArgument`
    | InvalidArgument
      // the SPL token program refused
    | TokenProgram
      // the LayerZero endpoint or its option parser refused
    | Endpoint

  datatype Result<+T> = Ok(value: T) | Err(error: Error) {
    predicate IsFailure() {
      Err?
    }

    function PropagateFailure<U>(): Result<U>
      requires Err?
    {
      Err(error)
    }

    function Extract(): T
      requires Ok?
    {
      value
    }
  }
}
