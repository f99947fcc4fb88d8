/** The settings the modelled code reads, with the bounds checked at startup.
    Seconds are turned into milliseconds, the unit of every instant here. */
module Config {
  datatype Config = Config(
    latencyWeight: real,
    successWeight: real,
    ewmaAlpha: real,
    hysteresisMargin: real,
    maxSlotLag: nat,
    maxBlockhashAge: nat,
    errorThreshold: real,
    cooldown: nat,
    rollingWindow: nat,
    maxAttempts: nat,
    retryOnDifferentUpstream: bool,
    maxConcurrent: nat)
  {
    predicate Valid() {
      && 0.0 <= latencyWeight <= 1.0 && 0.0 <= successWeight <= 1.0
      && 0.0 < ewmaAlpha < 1.0 && 0.0 <= hysteresisMargin < 1.0
      && 0.0 <= errorThreshold <= 1.0 && rollingWindow > 0
      && maxAttempts > 0 && maxConcurrent > 0
    }
  }
}
