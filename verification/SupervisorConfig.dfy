/** `parseConfig`: the supervisor's tunables, read from the environment and clamped. */
module SupervisorConfig {

  /** What `Number(v)` yields for an environment variable: NaN and the infinities are `NotFinite`. */
  datatype EnvNumber = NotFinite | Finite(value: real)

  datatype Env = Env(
    clusterMin: EnvNumber, clusterMax: EnvNumber,
    cpuHigh: EnvNumber, cpuLow: EnvNumber,
    cooldownMs: EnvNumber, drainMs: EnvNumber, sampleMs: EnvNumber)

  datatype Config = Config(
    min: int, max: int,
    cpuHigh: real, cpuLow: real,
    cooldownMs: real, drainMs: real, sampleMs: real,
    crashWindowMs: real, crashBackoffMs: real, crashPauseMs: real, crashFastMs: real)
  {
    /** What the supervisor relies on, and all that its invariants below assume. */
    predicate Valid() {
      && 1 <= min <= max
      && 0.0 <= cpuLow < cpuHigh <= 1.0
      && 0.0 <= cooldownMs && 1000.0 <= drainMs && 1000.0 <= sampleMs
      && 0.0 < crashWindowMs && 0.0 < crashBackoffMs && 0.0 < crashPauseMs && 0.0 < crashFastMs
    }
  }

  function NumOr(v: EnvNumber, d: real): real {
    if v.Finite? then v.value else d
  }

  /** `Math.trunc`: toward zero. */
  function Trunc(r: real): int {
    if r >= 0.0 then r.Floor else -((-r).Floor)
  }

  /** `Math.max(lo, Math.min(hi, n))`: when the bounds cross, `lo` wins. */
  function Clamp(n: real, lo: real, hi: real): real {
    var low := if hi <= n then hi else n;
    if lo >= low then lo else low
  }

  function ClampInt(n: int, lo: int, hi: int): int {
    var low := if hi <= n then hi else n;
    if lo >= low then lo else low
  }

  function AtLeast(lo: real, n: real): real {
    if lo >= n then lo else n
  }

  /** A core count of zero, NaN or less than one counts as one core. */
  function SafeCores(cores: EnvNumber): int {
    if cores.Finite? && Trunc(cores.value) >= 1 then Trunc(cores.value) else 1
  }

  /** Every environment and every core count gives a config the supervisor can run on. */
  function ParseConfig(env: Env, cores: EnvNumber): (cfg: Config)
    ensures cfg.Valid()
    ensures cfg.max <= SafeCores(cores)
    ensures cfg.cpuLow + 0.05 <= cfg.cpuHigh
  {
    var safeCores := SafeCores(cores);
    var min := ClampInt(Trunc(NumOr(env.clusterMin, 1.0)), 1, safeCores);
    var max := ClampInt(Trunc(NumOr(env.clusterMax, safeCores as real)), min, safeCores);
    var cpuHigh := Clamp(NumOr(env.cpuHigh, 0.7), 0.1, 1.0);
    var cpuLow := Clamp(NumOr(env.cpuLow, 0.25), 0.0, cpuHigh - 0.05);
    Config(min, max, cpuHigh, cpuLow,
           AtLeast(0.0, NumOr(env.cooldownMs, 15000.0)),
           AtLeast(1000.0, NumOr(env.drainMs, 25000.0)),
           AtLeast(1000.0, NumOr(env.sampleMs, 5000.0)),
           60000.0, 1000.0, 30000.0, 3000.0)
  }

  /** Clamping changes only out-of-range settings: a pool size that fits the machine is kept exactly. */
  lemma PoolSizeIsKeptExactlyWhenItFits(env: Env, cores: EnvNumber, lo: int, hi: int)
    requires env.clusterMin == Finite(lo as real) && env.clusterMax == Finite(hi as real)
    ensures (ParseConfig(env, cores).min == lo && ParseConfig(env, cores).max == hi)
            <==> 1 <= lo <= hi <= SafeCores(cores)
  {
  }

  /** `x` is `n` where `n` is in range, and otherwise the bound that `n` is beyond. */
  predicate Clamped(x: real, n: real, lo: real, hi: real) {
    (lo <= n <= hi ==> x == n) && (n < lo ==> x == lo) && (n > hi ==> x == hi)
  }

  predicate Floored(x: real, n: real, lo: real) {
    (lo <= n ==> x == n) && (n < lo ==> x == lo)
  }

  /** `n` is what is given, or `d` where nothing is. */
  predicate Given(v: EnvNumber, d: real, n: real) {
    (v.Finite? ==> n == v.value) && (v.NotFinite? ==> n == d)
  }

  /** `n` is `r` without its fraction. */
  predicate Truncated(r: real, n: int) {
    (r >= 0.0 ==> n as real <= r < n as real + 1.0) && (r < 0.0 ==> n as real - 1.0 < r <= n as real)
  }

  /** Every setting that is given and in range is kept; the pool bounds lose their fraction first. */
  lemma SettingsAreKept(env: Env, cores: EnvNumber, low: real, high: real, cpuHigh: real, cpuLow: real,
                        cooldown: real, drain: real, sample: real, lowest: int, highest: int, count: int)
    requires if cores.Finite? then Truncated(cores.value, count) else count == 1
    requires Given(env.clusterMin, 1.0, low) && Truncated(low, lowest)
    requires Given(env.clusterMax, (if count < 1 then 1 else count) as real, high) && Truncated(high, highest)
    requires Given(env.cpuHigh, 0.7, cpuHigh) && Given(env.cpuLow, 0.25, cpuLow)
    requires Given(env.cooldownMs, 15000.0, cooldown) && Given(env.drainMs, 25000.0, drain)
    requires Given(env.sampleMs, 5000.0, sample)
    ensures var cfg, c := ParseConfig(env, cores), if count < 1 then 1 else count;
            && Clamped(cfg.min as real, lowest as real, 1.0, c as real)
            && Clamped(cfg.max as real, highest as real, cfg.min as real, c as real)
            && Clamped(cfg.cpuHigh, cpuHigh, 0.1, 1.0) && Clamped(cfg.cpuLow, cpuLow, 0.0, cfg.cpuHigh - 0.05)
            && Floored(cfg.cooldownMs, cooldown, 0.0)
            && Floored(cfg.drainMs, drain, 1000.0) && Floored(cfg.sampleMs, sample, 1000.0)
            && cfg.crashWindowMs == 60000.0 && cfg.crashBackoffMs == 1000.0
            && cfg.crashPauseMs == 30000.0 && cfg.crashFastMs == 3000.0
  {
    TruncIs(low, lowest);
    TruncIs(high, highest);
    if cores.Finite? {
      TruncIs(cores.value, count);
    }
    hide Trunc;
  }

  lemma TruncIs(r: real, n: int)
    ensures Truncated(r, n) ==> Trunc(r) == n
  {
  }
}
