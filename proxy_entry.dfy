/**
 * The `Proxy` record of proxy_pool.py: one tracked endpoint, with its derived
 * `success_rate`, `is_valid` and `proxy_url`.
 */
module ProxyEntry {
  import opened Wrappers
  import opened Text

  /**
   * A caller-supplied instant standing for a `datetime.now()` value; nothing
   * in the core looks inside it.
   */
  type Instant = int

  /**
   * The fields of the dataclass. Scores and response times are exact
   * rationals; the counters are never negative.
   */
  datatype Proxy = Proxy(
    ip: string,
    port: int,
    score: real,
    successCount: nat,
    failCount: nat,
    lastSuccessTime: Option<Instant>,
    lastFailTime: Option<Instant>,
    responseTime: real,
    country: string,
    anonymity: string,
    proxyType: string)

  /** `Proxy(ip=ip, port=port)`: every other field at its dataclass default. */
  function NewProxy(ip: string, port: int): Proxy {
    Proxy(ip, port, 1.0, 0, 0, None, None, 0.0, "", "", "http")
  }

  /** Floors hard-coded in `is_valid`. */
  const ValidScoreFloor: real := 0.3
  const ValidRateFloor: real := 0.5

  /** `success_rate`: successes over all outcomes, 0 before any outcome. */
  function SuccessRate(p: Proxy): (r: real)
    ensures 0.0 <= r <= 1.0
    ensures p.successCount + p.failCount == 0 ==> r == 0.0
    ensures p.successCount + p.failCount > 0 ==>
      r * (p.successCount + p.failCount) as real == p.successCount as real
  {
    var total := p.successCount + p.failCount;
    if total == 0 then 0.0 else p.successCount as real / total as real
  }

  /** `is_valid`: score at least 0.3 and success rate at least 0.5. */
  predicate IsValid(p: Proxy) {
    p.score >= ValidScoreFloor && SuccessRate(p) >= ValidRateFloor
  }

  /** A valid proxy has succeeded at least once, and at least as often as it failed. */
  lemma ValidHasSucceeded(p: Proxy)
    requires IsValid(p)
    ensures p.successCount >= 1 && p.successCount >= p.failCount
  {
    var total := (p.successCount + p.failCount) as real;
    var r := SuccessRate(p);
    assert total > 0.0;
    assert r * total == p.successCount as real;
    assert r * total == 0.5 * total + (r - 0.5) * total;
    ProductNonNegative(r - 0.5, total);
    assert p.successCount as real >= 0.5 * total;
  }

  lemma ProductNonNegative(a: real, b: real)
    requires a >= 0.0 && b >= 0.0
    ensures a * b >= 0.0
  {
  }

  /** `proxy_url`: `f"{ip}:{port}"`, the key the pool files the proxy under. */
  function ProxyUrl(p: Proxy): string {
    p.ip + ":" + IntToString(p.port)
  }

  /**
   * The address ends in the port's last digit, and the part after its last
   * ':' is the port: different (ip, port) pairs give different keys.
   */
  lemma ProxyUrlShape(p: Proxy)
    ensures |ProxyUrl(p)| > |p.ip| + 1 && IsDigit(ProxyUrl(p)[|ProxyUrl(p)| - 1])
    ensures ProxyUrl(p)[..|p.ip|] == p.ip && ProxyUrl(p)[|p.ip|] == ':'
    ensures ProxyUrl(p)[|p.ip| + 1..] == IntToString(p.port)
  {
    IntToStringShape(p.port);
  }
}
