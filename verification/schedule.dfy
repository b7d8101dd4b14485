/** `_getWhen`: resolving the time at which a labour becomes due. */
module Schedule {
  import opened Jobs

  /**
   * The `$delay` argument of `add` and `reschedule`: `false` (no override),
   * a numeric number of seconds, an absolute `Zend_Date`, or any other value,
   * which the engine cannot use.
   */
  datatype Delay = NoOverride | Seconds(n: int) | At(timestamp: int) | Unusable

  /**
   * The `execute_at` timestamp for a labour of a worker with `config`, asked
   * for at time `now`. The default is `now` plus the worker's configured
   * delay; a numeric override replaces the configured delay, an absolute date
   * is taken as it is, and an unusable override falls back to the default.
   * The configured delay is an integer, so the source's `is_numeric` test of
   * it always holds and its fallback branch recomputes the default.
   */
  function GetWhen(config: WorkerConfig, delay: Delay, now: int): (when: int)
    ensures delay.At? ==> when == delay.timestamp
    ensures delay.Seconds? ==> when - now == delay.n
    ensures (delay.NoOverride? || delay.Unusable?) ==> when - now == config.delay
  {
    var default := now + config.delay;
    if delay.NoOverride? then default
    else match delay
      case Seconds(n) => now + n
      case At(t) => t
      case _ => now + config.delay
  }

  /** An override that cannot be used behaves exactly like no override. */
  lemma GetWhenUnusableIsDefault(config: WorkerConfig, now: int)
    ensures GetWhen(config, Unusable, now) == GetWhen(config, NoOverride, now)
  {
  }

  /**
   * Every relative delay moves with the clock; an absolute date does not.
   */
  lemma GetWhenShift(config: WorkerConfig, delay: Delay, now: int, d: int)
    ensures delay.At? ==> GetWhen(config, delay, now + d) == GetWhen(config, delay, now)
    ensures !delay.At? ==> GetWhen(config, delay, now + d) == GetWhen(config, delay, now) + d
  {
  }
}
