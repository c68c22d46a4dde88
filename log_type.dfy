/**
 * The logger's own log categories as single bits of a filter mask, the
 * mask of all of them, and the translation from the engine's log types.
 */
module LogTypes {
  import opened Wrappers

  /** The logger's `LogType` enumeration. */
  datatype LogType = UnityError | UnityAssert | UnityWarning | UnityLog | Exception | PlayLog

  /** A filter mask: C#'s 32-bit `int`, on which `&`, `|` and `^` act bit by bit. */
  type Mask = bv32

  /** One of the six lowest bits of a mask. */
  predicate LowBit(b: Mask) {
    b == 1 || b == 2 || b == 4 || b == 8 || b == 16 || b == 32
  }

  /** The enumeration value of `t`, used as its bit in a filter mask. */
  function Bit(t: LogType): (b: Mask)
    ensures LowBit(b)
  {
    match t
    case UnityError => 1
    case UnityAssert => 2
    case UnityWarning => 4
    case UnityLog => 8
    case Exception => 16
    case PlayLog => 32
  }

  /** `LogTypeHelper.all`: the OR of every category's bit. */
  const All: Mask :=
    Bit(PlayLog) | Bit(UnityLog) | Bit(UnityWarning) | Bit(UnityAssert) | Bit(UnityError) | Bit(Exception)

  /** Category `t` passes a filter whose mask is `mask`. */
  predicate Enabled(mask: Mask, t: LogType) {
    mask & Bit(t) != 0
  }

  /** Two masks that agree on a category's bit agree on whether it is enabled. */
  lemma EnabledSame(m: Mask, n: Mask, t: LogType)
    requires m & Bit(t) == n & Bit(t)
    ensures Enabled(m, t) == Enabled(n, t)
  {
  }

  /** Different categories have different, non-overlapping bits. */
  lemma BitsDistinct(a: LogType, b: LogType)
    ensures a == b <==> Bit(a) & Bit(b) != 0
  {
  }

  /** The `all` mask is 63 and every category is enabled in it. */
  lemma AllHasEveryBit()
    ensures All == 63
    ensures forall t :: Bit(t) & All == Bit(t)
  {
  }

  /** The engine's `UnityEngine.LogType` values, as the engine numbers them. */
  const EngineError := 0
  const EngineAssert := 1
  const EngineWarning := 2
  const EngineLog := 3
  const EngineException := 4

  /** `ToCustomLogType`: the category of an engine log; any other value is out of range. */
  function ToCustomLogType(engine: int): (r: Result<LogType>)
    ensures r.Ok? <==> EngineError <= engine <= EngineException
    ensures r.Fail? ==> r.error == ArgumentOutOfRange
    ensures r.Ok? ==> r.value != PlayLog
  {
    if engine == EngineError then Ok(UnityError)
    else if engine == EngineAssert then Ok(UnityAssert)
    else if engine == EngineWarning then Ok(UnityWarning)
    else if engine == EngineLog then Ok(UnityLog)
    else if engine == EngineException then Ok(Exception)
    else Fail(ArgumentOutOfRange)
  }

  /** Distinct engine log types map to distinct categories. */
  lemma ToCustomLogTypeInjective(a: int, b: int)
    requires ToCustomLogType(a).Ok? && ToCustomLogType(b).Ok?
    requires a != b
    ensures ToCustomLogType(a).value != ToCustomLogType(b).value
  {
  }
}
