/** The parts of the Soroban host every contract relies on: addresses, the fixed-width integers of
    the target machine, and the outcome of a call that may panic.

    Integers are Dafny's unbounded `int`.  Wherever the contracts use `checked_*` arithmetic the
    model tests the range explicitly (`Checked`); wherever they use a bare operator the release
    profile (`Cargo.toml:34`, overflow checks off) wraps, and the model wraps too (`WrapI128`). */
module Host {
  type Address = nat

  const I128_MAX: int := 0x7FFF_FFFF_FFFF_FFFF_FFFF_FFFF_FFFF_FFFF
  const I128_MIN: int := -0x8000_0000_0000_0000_0000_0000_0000_0000
  const TWO_TO_128: int := 0x1_0000_0000_0000_0000_0000_0000_0000_0000
  const U64_MAX: int := 0xFFFF_FFFF_FFFF_FFFF
  const U32_MAX: int := 0xFFFF_FFFF

  predicate IsI128(x: int) {
    I128_MIN <= x <= I128_MAX
  }

  /** Two's-complement wrap-around of an `i128` result. */
  function WrapI128(x: int): (w: int)
    ensures IsI128(w)
    ensures IsI128(x) ==> w == x
  {
    (x - I128_MIN) % TWO_TO_128 + I128_MIN
  }

  /** Rust's integer division, which truncates toward zero. */
  function Quot(a: int, b: int): int
    requires b != 0
  {
    if a >= 0 then a / b else -((-a) / b)
  }

  /** The outcome of an entry point: a value, or a panic that rolls the whole call back. */
  datatype Result<+T, +E> = Ok(value: T) | Err(error: E) {
    predicate IsFailure() {
      Err?
    }

    function PropagateFailure<U>(): Result<U, E>
      requires Err?
    {
      Err(error)
    }

    function Extract(): T
      requires Ok?
    {
      value
    }
  }

  /** The outcome of a guard such as `assert!`. */
  datatype Guard<+E> = Pass | Fail(error: E) {
    predicate IsFailure() {
      Fail?
    }

    function PropagateFailure<U>(): Result<U, E>
      requires Fail?
    {
      Err(error)
    }
  }

  datatype Option<+T> = None | Some(value: T)

  /** An `i128` result of `checked_*` arithmetic: the value, or the panic `e` out of range. */
  function Checked<E>(x: int, e: E): Result<int, E> {
    if IsI128(x) then Ok(x) else Err(e)
  }

  /** What a caller sees of a step: its answer, without the next state. */
  function Answer<S, T, E>(r: Result<(S, T), E>): Result<T, E> {
    match r
    case Ok((_, v)) => Ok(v)
    case Err(e) => Err(e)
  }

  /** The state after a step: a panic rolls everything back. */
  function After<S, T, E>(before: S, r: Result<(S, T), E>): S {
    match r
    case Ok((s, _)) => s
    case Err(_) => before
  }

  /** The same for a helper that answers nothing: the state it leaves, and whether it panicked. */
  function Settled<S, E>(before: S, r: Result<S, E>): (S, Result<(), E>) {
    match r
    case Ok(s) => (s, Ok(()))
    case Err(e) => (before, Err(e))
  }

  function Need<E>(condition: bool, e: E): Guard<E> {
    if condition then Pass else Fail(e)
  }

  function Min(a: int, b: int): int {
    if a < b then a else b
  }

  function Max(a: int, b: int): int {
    if a < b then b else a
  }

  function GetOr<K, V>(m: map<K, V>, k: K, default: V): V {
    if k in m then m[k] else default
  }
}
