/** Small shared vocabulary: optional values, the web layer's Result, time units. */
module Common {

  datatype Option<+T> = None | Some(value: T)

  /** A strictly positive amount (Redis refuses a TTL of zero or less). */
  type Pos = n: int | n > 0 witness 1

  /** 2 to the power k. */
  function Pow2(k: nat): (p: nat)
    ensures p >= 1
  {
    if k == 0 then 1 else 2 * Pow2(k - 1)
  }

  /** The subset of java.util.concurrent.TimeUnit that the core uses. */
  datatype TimeUnit = Seconds | Minutes | Hours | Days

  /** TimeUnit.toSeconds for the units above. */
  function ToSeconds(time: int, unit: TimeUnit): (s: int)
    ensures time > 0 ==> s >= time
    ensures time == 0 <==> s == 0
  {
    match unit
    case Seconds => time
    case Minutes => time * 60
    case Hours => time * 3600
    case Days => time * 86400
  }

  /**
   * What a service method hands back to the web layer: `Result.ok()`,
   * `Result.ok(data)`, `Result.fail(msg)`, a plain `null`, or an exception
   * that escapes the method.
   */
  datatype Response<+T> = Ok | OkData(data: T) | Fail(msg: string) | Null | Thrown
}
