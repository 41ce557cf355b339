/** How the traffic tester turns a bit rate into a burst of packets and the interval between bursts
    (ttest/ttsnd.c). */
module TrafficRate {
  const DEF_IBG_MSEC := 50

  /** The ranges the command line accepts, in kilobits per second and bytes. */
  predicate Parsed(rateKbps: int, psize: int) {
    100 <= rateKbps <= 1000000 && 64 <= psize <= 1472
  }

  lemma DivBounds(x: int, d: int)
    requires d >= 1 && x >= 0
    ensures d * (x / d) <= x < d * (x / d) + d
    ensures x / d >= 0 && x % d == x - d * (x / d)
  {
  }

  lemma MulMono(a: int, b: int, c: int)
    requires a <= b && c >= 0
    ensures c * a <= c * b
  {
  }

  /** `d` bits a packet: the packets a second are never none, so the division in the slow branch is
      safe. */
  lemma PktsPerSecBounds(rate: int, d: int, np: int)
    requires 100 <= rate && 1 <= d <= 11776 && np == rate * 1000 / d
    ensures np >= 8 && d * np <= rate * 1000 < d * np + d
  {
  }

  /** A slow interval wastes at most 14 of every 1000 milliseconds, which happens at 17 packets per
      second. */
  lemma SlowInterval(np: int)
    requires 8 <= np <= 19
    ensures 986 <= np * (1000 / np) <= 1000 && 52 <= 1000 / np <= 125
  {
    if np <= 10 { assert np == 8 || np == 9 || np == 10; }
    else if np <= 13 { assert np == 11 || np == 12 || np == 13; }
    else if np <= 16 { assert np == 14 || np == 15 || np == 16; }
    else { assert np == 17 || np == 18 || np == 19; }
  }

  lemma SlowRate(rate: int, d: int, np: int, ibg: int)
    requires d * np <= rate * 1000 < d * np + d && d >= 1
    requires ibg >= 1 && 986 <= np * ibg <= 1000
    ensures d * 986 <= rate * ibg * 1000 < d * (1000 + ibg)
  {
  }

  lemma FastRate(rate: int, d: int, np: int, n: int)
    requires d * np <= rate * 1000 < d * np + d && d >= 1 && 1000 * n <= np * 50 < 1000 * n + 1000
    ensures d * n <= rate * 50 < d * n + d
  {
    MulMono(20 * n, np, d);
    MulMono(np + 1, 20 * n + 20, d);
    assert d * (20 * n) == 20 * (d * n);
    assert d * (np + 1) == d * np + d;
    assert d * (20 * n + 20) == 20 * (d * n) + 20 * d;
  }

  function PktsPerSec(rateKbps: int, psize: int): int
    requires psize >= 1
  {
    rateKbps * 1000 / (psize * 8)
  }

  /** The burst and the interval meet the rate from both sides. From 20 packets a second up, the burst
      is the largest that fits 50 ms; below, the interval is the longest in which one packet keeps up
      with that many packets a second, and the rate is exceeded by at most 14 parts in 986. */
  ghost predicate MeetsRate(rateKbps: int, psize: int, ibgMs: int, burst: int)
    requires psize >= 1
  {
    var np := PktsPerSec(rateKbps, psize);
    && burst >= 1 && 50 <= ibgMs <= 125
    && psize * 8 * burst * 986 <= rateKbps * ibgMs * 1000
    && (ibgMs == 50 <==> np >= 20)
    && (ibgMs == 50 ==> psize * 8 * burst <= rateKbps * 50 < psize * 8 * burst + psize * 8)
    && (ibgMs != 50 ==> burst == 1 && np * ibgMs <= 1000 < np * ibgMs + np)
  }

  method CalcPktsRate(rateKbps: int, psize: int) returns (ibgMs: int, npktsIbg: int)
    requires Parsed(rateKbps, psize)
    ensures MeetsRate(rateKbps, psize, ibgMs, npktsIbg)
  {
    ibgMs := DEF_IBG_MSEC;
    var d := psize * 8;
    var npSec := rateKbps * 1000 / d;
    npktsIbg := npSec * ibgMs / 1000;
    PktsPerSecBounds(rateKbps, d, npSec);
    DivBounds(npSec * 50, 1000);
    if npktsIbg == 0 {
      ibgMs := 1000 / npSec;
      DivBounds(1000, npSec);
      SlowInterval(npSec);
      npktsIbg := 1;
      SlowRate(rateKbps, d, npSec, ibgMs);
    } else {
      FastRate(rateKbps, d, npSec, npktsIbg);
    }
  }

  /** The constant 986 is met: at 170 Kbps in packets of 1250 bytes there are 17 packets a second and
      58 ms between them. */
  lemma RateBoundIsTight()
    ensures Parsed(170, 1250) && PktsPerSec(170, 1250) == 17 && 1000 / 17 == 58
    ensures MeetsRate(170, 1250, 58, 1)
    ensures 1250 * 8 * 986 == 170 * 58 * 1000
  {
  }
}
