/** The sending worker of the traffic tester (ttest/ttsnd.c): it sends a burst per interval and, when it
    falls behind the clock, makes the next burst larger. */
module TrafficSender {
  import opened TrafficRate

  const WORD := 0x1_0000_0000

  // ----- The rounds of a worker ----------------------------------------------------------------------

  /** One turn of the sending loop: when it began, how many packets it was to send, how long sending
      took, and how many of the sends succeeded. Times are in microseconds. */
  datatype Round = Round(start: int, quota: int, delta: int, sent: int)

  /** What a worker is set up with; `ibg` is the interval between bursts, in microseconds. */
  datatype Plan = Plan(psize: int, ibg: int, burst: int)

  ghost predicate Sane(p: Plan) {
    p.psize >= 1 && p.ibg >= 1 && p.burst >= 1
  }

  function Late(p: Plan, r: Round): bool {
    r.delta >= p.ibg
  }

  /** The quota that follows round `r`. */
  function Due(p: Plan, r: Round): int
    requires p.ibg >= 1
  {
    if Late(p, r) then p.burst * r.delta / p.ibg else p.burst
  }

  /** The first moment at which the round after `r` can begin. */
  function Free(p: Plan, r: Round): int {
    r.start + if Late(p, r) then r.delta else p.ibg
  }

  ghost predicate Chained(p: Plan, log: seq<Round>)
    requires p.ibg >= 1
  {
    && (forall k :: 0 <= k < |log| ==> 0 <= log[k].sent <= log[k].quota && log[k].delta >= 0)
    && (log != [] ==> log[0].quota == p.burst)
    && (forall k :: 1 <= k < |log| ==> log[k].quota == Due(p, log[k - 1]) && log[k].start >= Free(p, log[k - 1]))
  }

  /** What the next round is asked for, and the first moment it can begin. */
  function NextQuota(p: Plan, log: seq<Round>): int
    requires p.ibg >= 1
  {
    if log == [] then p.burst else Due(p, log[|log| - 1])
  }

  ghost predicate CanBegin(p: Plan, log: seq<Round>, t: int) {
    log != [] ==> t >= Free(p, log[|log| - 1])
  }

  lemma ChainedExtends(p: Plan, log: seq<Round>, r: Round)
    requires p.ibg >= 1 && Chained(p, log) && r.quota == NextQuota(p, log) && CanBegin(p, log, r.start)
    requires 0 <= r.sent <= r.quota && r.delta >= 0
    ensures Chained(p, log + [r])
  {
  }

  function Quota(log: seq<Round>): int {
    if log == [] then 0 else Quota(log[..|log| - 1]) + log[|log| - 1].quota
  }

  function Sent(log: seq<Round>): int {
    if log == [] then 0 else Sent(log[..|log| - 1]) + log[|log| - 1].sent
  }

  // ----- What the burst owes the clock ---------------------------------------------------------------

  /** Microseconds the worker stood idle beyond its own waits: between the moment a round could have
      begun and the moment it did. */
  function Idle(p: Plan, log: seq<Round>): int
    requires p.ibg >= 1
  {
    if |log| <= 1 then 0
    else Idle(p, log[..|log| - 1]) + log[|log| - 1].start - Free(p, log[|log| - 2])
  }

  /** What flooring the quota of late rounds has cost, in packets times the interval. */
  function Floored(p: Plan, log: seq<Round>): int
    requires p.ibg >= 1
  {
    if |log| <= 1 then 0
    else Floored(p, log[..|log| - 1])
         + if Late(p, log[|log| - 2]) then p.burst * log[|log| - 2].delta % p.ibg else 0
  }

  function LateRounds(p: Plan, log: seq<Round>): int {
    if |log| <= 1 then 0
    else LateRounds(p, log[..|log| - 1]) + if Late(p, log[|log| - 2]) then 1 else 0
  }

  lemma ChainedPrefix(p: Plan, log: seq<Round>)
    requires p.ibg >= 1 && Chained(p, log) && log != []
    ensures Chained(p, log[..|log| - 1])
  {
  }

  /** One step of the books below: the time between two starts, at the planned rate, is the second
      quota, what flooring it cost, and the idle time. */
  lemma StepBalances(p: Plan, r: Round, quota: int, start: int)
    requires Sane(p) && quota == Due(p, r)
    ensures var cost := if Late(p, r) then p.burst * r.delta % p.ibg else 0;
      && 0 <= cost < p.ibg
      && p.burst * (start - r.start) == p.ibg * quota + cost + p.burst * (start - Free(p, r))
    ensures r.delta >= 0 ==> quota >= p.burst
  {
    var b, d, g := p.burst, r.delta, p.ibg;
    if Late(p, r) {
      MulMono(g, d, b);
      MulMono(0, g, b);
      DivBounds(b * d, g);
      assert b * (start - r.start) == b * d + b * (start - (r.start + d));
      assert b * g == g * b;
      QuotientAtLeast(b * d, g, b);
    } else {
      assert b * (start - r.start) == b * g + b * (start - (r.start + g));
      assert b * g == g * b;
    }
  }

  lemma QuotientAtLeast(x: int, d: int, b: int)
    requires d >= 1 && d * b <= x && x >= 0
    ensures x / d >= b
  {
    DivBounds(x, d);
    var q := x / d;
    assert d * (q + 1) == d * q + d;
    if q < b {
      MulMono(q + 1, b, d);
    }
  }

  /** The catch-up rule keeps exact books: over any number of rounds, the packets the elapsed time is
      worth are those asked for after the first burst, those lost to flooring, and those the idle time
      was worth; and each late round loses less than one packet to flooring. */
  lemma {:induction false} CatchUpBalances(p: Plan, log: seq<Round>)
    requires Sane(p) && Chained(p, log) && log != []
    ensures var elapsed := log[|log| - 1].start - log[0].start;
      p.burst * elapsed
      == p.ibg * (Quota(log) - p.burst) + Floored(p, log) + p.burst * Idle(p, log)
    ensures Idle(p, log) >= 0 && LateRounds(p, log) >= 0
    ensures 0 <= Floored(p, log) <= (p.ibg - 1) * LateRounds(p, log)
    decreases |log|
  {
    var n, init := |log| - 1, log[..|log| - 1];
    if n == 0 {
      assert Quota(init) == 0;
      assert p.burst * 0 == 0 && p.ibg * 0 == 0 && (p.ibg - 1) * 0 == 0;
    } else {
      ChainedPrefix(p, log);
      CatchUpBalances(p, init);
      assert init[n - 1] == log[n - 1] && init[0] == log[0];
      StepBalances(p, log[n - 1], log[n].quota, log[n].start);
      var e, s := log[n - 1].start - log[0].start, log[n].start - log[n - 1].start;
      var f := log[n].start - Free(p, log[n - 1]);
      Distribute(p.burst, e, s);
      Distribute(p.ibg, Quota(init) - p.burst, log[n].quota);
      Distribute(p.burst, Idle(p, init), f);
      Distribute(p.ibg - 1, LateRounds(p, init), if Late(p, log[n - 1]) then 1 else 0);
    }
  }

  lemma Distribute(a: int, x: int, y: int)
    ensures a * (x + y) == a * x + a * y
  {
  }

  /** Every round is asked for at least one burst. */
  lemma QuotaAtLeastBurst(p: Plan, log: seq<Round>, k: nat)
    requires Sane(p) && Chained(p, log) && k < |log|
    ensures log[k].quota >= p.burst
  {
    if k > 0 {
      StepBalances(p, log[k - 1], log[k].quota, 0);
    }
  }

  /** What one round makes of the next: after a late one, the packets its time was worth at the planned rate,
      rounded down, and no wait; otherwise one burst, an interval after it began. */
  lemma QuotaFollowsClock(p: Plan, log: seq<Round>, k: nat)
    requires Sane(p) && Chained(p, log) && 1 <= k < |log|
    ensures var r, quota := log[k - 1], log[k].quota;
      if r.delta >= p.ibg then
        p.ibg * quota <= p.burst * r.delta < p.ibg * quota + p.ibg && log[k].start >= r.start + r.delta
      else
        quota == p.burst && log[k].start >= r.start + p.ibg
  {
    if log[k - 1].delta >= p.ibg {
      DivBounds(p.burst * log[k - 1].delta, p.ibg);
    }
  }

  lemma {:induction false} SentWithinQuota(p: Plan, log: seq<Round>)
    requires Sane(p) && Chained(p, log)
    ensures 0 <= Sent(log) <= Quota(log)
    decreases |log|
  {
    if log != [] {
      ChainedPrefix(p, log);
      SentWithinQuota(p, log[..|log| - 1]);
    }
  }

  // ----- From the command line to the wire -----------------------------------------------------------

  /** With an interval and a burst that meet the rate, the bits asked for after the first burst stay
      below `1000/986` of the rate over the elapsed time, and below the rate itself from 20 packets a
      second up. The elapsed time is in microseconds, the rate in kilobits per second. */
  lemma RateBound(rateKbps: int, ibgMs: int, p: Plan, log: seq<Round>)
    requires p.psize >= 1 && MeetsRate(rateKbps, p.psize, ibgMs, p.burst) && p.ibg == ibgMs * 1000
    requires Chained(p, log) && log != []
    ensures var bits := p.psize * 8 * (Quota(log) - p.burst);
      var elapsed := log[|log| - 1].start - log[0].start;
      && bits * 986 <= rateKbps * elapsed
      && (PktsPerSec(rateKbps, p.psize) >= 20 ==> bits * 1000 <= rateKbps * elapsed)
  {
    var q, elapsed := Quota(log) - p.burst, log[|log| - 1].start - log[0].start;
    AskedWithinElapsed(p, log);
    var d := p.psize * 8;
    PerInterval(d, p.burst, rateKbps, ibgMs, 986);
    ScaleBound(d, p.burst, p.ibg, q, elapsed, 986, rateKbps);
    if ibgMs == 50 {
      ScaleBound(d, p.burst, p.ibg, q, elapsed, 1000, rateKbps);
    }
  }

  lemma PerInterval(d: int, burst: int, rate: int, ibgMs: int, c: int)
    requires d * burst * c <= rate * ibgMs * 1000
    ensures d * burst * c <= rate * (ibgMs * 1000)
  {
  }

  /** What the rounds after the first were asked for never exceeds what the elapsed time is worth. */
  lemma AskedWithinElapsed(p: Plan, log: seq<Round>)
    requires Sane(p) && Chained(p, log) && log != []
    ensures var elapsed := log[|log| - 1].start - log[0].start;
      elapsed >= 0 && p.ibg * (Quota(log) - p.burst) <= p.burst * elapsed
  {
    CatchUpBalances(p, log);
    MulMono(0, Idle(p, log), p.burst);
    ElapsedNotNegative(p, log);
  }

  lemma ScaleBound(d: int, burst: int, ibg: int, q: int, elapsed: int, c: int, rate: int)
    requires d >= 0 && ibg >= 1 && c >= 0 && elapsed >= 0
    requires ibg * q <= burst * elapsed && d * burst * c <= rate * ibg
    ensures d * q * c <= rate * elapsed
  {
  }

  lemma {:induction false} ElapsedNotNegative(p: Plan, log: seq<Round>)
    requires Sane(p) && Chained(p, log) && log != []
    ensures log[|log| - 1].start >= log[0].start
    decreases |log|
  {
    if |log| > 1 {
      ChainedPrefix(p, log);
      ElapsedNotNegative(p, log[..|log| - 1]);
    }
  }

  // ----- Counters of fixed width ---------------------------------------------------------------------

  function Wrap(x: int): (w: int)
    ensures 0 <= w < WORD && (0 <= x < WORD ==> w == x)
  {
    x % WORD
  }

  lemma WrapUnique(x: int, y: int, k: int)
    requires x == y + k * WORD && 0 <= y < WORD
    ensures Wrap(x) == y
  {
  }

  /** Adding to a wrapped counter, and taking the difference of two of its values. */
  lemma WrapAdds(x: int, y: int)
    ensures Wrap(Wrap(x) + y) == Wrap(x + y)
    ensures Wrap(Wrap(x + y) - Wrap(x)) == Wrap(y)
  {
    var a, b, c := x / WORD, y / WORD, (x + y) / WORD;
    WrapUnique(Wrap(x) + y, Wrap(x + y), c - a);
    WrapUnique(Wrap(x + y) - Wrap(x), Wrap(y), b + a - c);
  }

  /** The packet and byte counters after the rounds of `log`: each round adds the 32-bit difference of
      two sequence numbers, and a 32-bit product. */
  function CountedPkts(log: seq<Round>): int {
    if log == [] then 0 else CountedPkts(log[..|log| - 1]) + Wrap(log[|log| - 1].sent)
  }

  function CountedBytes(p: Plan, log: seq<Round>): int {
    if log == [] then 0
    else CountedBytes(p, log[..|log| - 1]) + Wrap(p.psize * Wrap(log[|log| - 1].sent))
  }

  /** The packet counter is exact while every round sends fewer than 2^32 packets; the byte counter is
      then exact if and only if no round sends 2^32 bytes or more. */
  lemma {:induction false} CountersExact(p: Plan, log: seq<Round>)
    requires Sane(p) && forall k :: 0 <= k < |log| ==> 0 <= log[k].sent < WORD
    ensures CountedPkts(log) == Sent(log)
    ensures CountedBytes(p, log) <= p.psize * Sent(log)
    ensures CountedBytes(p, log) == p.psize * Sent(log)
      <==> forall k :: 0 <= k < |log| ==> p.psize * log[k].sent < WORD
    decreases |log|
  {
    if log == [] {
      assert p.psize * 0 == 0;
    } else {
      var n, init := |log| - 1, log[..|log| - 1];
      CountersExact(p, init);
      Distribute(p.psize, Sent(init), log[n].sent);
      MulMono(0, log[n].sent, p.psize);
      WrapNoMore(p.psize * log[n].sent);
      var exact := p.psize * log[n].sent < WORD;
      assert (forall k :: 0 <= k < |init| ==> p.psize * init[k].sent < WORD)
        <==> (forall k :: 0 <= k < n ==> p.psize * log[k].sent < WORD);
    }
  }

  lemma WrapNoMore(x: int)
    requires x >= 0
    ensures Wrap(x) <= x && (Wrap(x) == x <==> x < WORD)
  {
  }

  /** It does happen: at 1 Gbps in packets of 1472 bytes, a worker that stalls for 35.4 seconds is owed
      three million packets, and the byte counter misses 2^32 of what they carry. */
  lemma ByteCounterWraps()
    ensures var p := Plan(1472, 50000, 4245);
      var log := [Round(0, 4245, 35400000, 4245), Round(35400000, 3005460, 0, 3005460)];
      && MeetsRate(1000000, p.psize, 50, p.burst)
      && Chained(p, log)
      && CountedPkts(log) == Sent(log)
      && CountedBytes(p, log) == p.psize * Sent(log) - WORD
  {
    var p, a, b := Plan(1472, 50000, 4245), Round(0, 4245, 35400000, 4245), Round(35400000, 3005460, 0, 3005460);
    assert [a, b][..1] == [a] && [a][..0] == [];
    assert 1000000 * 1000 / (1472 * 8) == 84918;
    assert p.burst * a.delta == 3005460 * 50000;
    assert Wrap(p.psize * b.sent) == p.psize * b.sent - WORD;
  }

  // ----- What passes between a worker and the world --------------------------------------------------

  /** A clock reading, a sleep of `d` microseconds and the time after it, or an attempt to send the packet
      with this number in its header. */
  datatype Act = Read(t: int) | Nap(d: int, t: int) | Try(num: int, ok: bool)

  /** The numbers of the packets sent. */
  function Carried(acts: seq<Act>): seq<int> {
    if acts == [] then []
    else
      var a := acts[|acts| - 1];
      Carried(acts[..|acts| - 1]) + if a.Try? && a.ok then [a.num] else []
  }

  /** How many packets the worker has tried to send. */
  function Attempts(acts: seq<Act>): nat {
    if acts == [] then 0 else Attempts(acts[..|acts| - 1]) + if acts[|acts| - 1].Try? then 1 else 0
  }

  ghost predicate AllSucceed(acts: seq<Act>) {
    forall a :: a in acts && a.Try? ==> a.ok
  }

  lemma OneMoreAct(acts: seq<Act>, a: Act)
    ensures Carried(acts + [a]) == Carried(acts) + if a.Try? && a.ok then [a.num] else []
    ensures Attempts(acts + [a]) == Attempts(acts) + if a.Try? then 1 else 0
  {
    assert (acts + [a])[..|acts|] == acts;
  }

  lemma {:induction false} ActsConcat(a: seq<Act>, b: seq<Act>)
    ensures Carried(a + b) == Carried(a) + Carried(b) && Attempts(a + b) == Attempts(a) + Attempts(b)
    decreases |b|
  {
    if b == [] {
      assert a + b == a;
    } else {
      var n := |b| - 1;
      assert (a + b)[..|a + b| - 1] == a + b[..n] && (a + b)[|a + b| - 1] == b[n];
      ActsConcat(a, b[..n]);
    }
  }

  /** If every attempt succeeds, every attempt is a packet. */
  lemma {:induction false} NothingFails(acts: seq<Act>)
    requires AllSucceed(acts)
    ensures |Carried(acts)| == Attempts(acts)
  {
    if acts != [] {
      var n := |acts| - 1;
      assert acts[n] in acts;
      forall a | a in acts[..n] && a.Try?
        ensures a.ok
      {
        assert a in acts;
      }
      NothingFails(acts[..n]);
    }
  }

  // ----- One pass of the loop, act by act ------------------------------------------------------------

  ghost predicate Tries(acts: seq<Act>, n: int) {
    |acts| == n && forall i :: 0 <= i < |acts| ==> acts[i].Try?
  }

  /** Waiting until `till`: the clock is read; if it is too early, it is read again until it is not when less
      than 100 microseconds are missing, and otherwise the worker sleeps just what is missing. */
  ghost predicate Waits(acts: seq<Act>, till: int) {
    && acts != [] && acts[0].Read?
    && var missing := till - acts[0].t;
      if missing <= 0 then |acts| == 1
      else if missing < 100 then Polls(acts, till)
      else |acts| == 2 && acts[1].Nap? && acts[1].d == missing
  }

  /** All clock readings, of which the last alone has reached `till`. */
  ghost predicate Polls(acts: seq<Act>, till: int) {
    && acts != []
    && forall i :: 0 <= i < |acts| ==> acts[i].Read? && (acts[i].t >= till <==> i == |acts| - 1)
  }

  /** A pass begins with a clock reading, tries as many packets as the quota says, reads the clock again, and
      waits for the rest of the interval if it is not late. */
  datatype Pass = Pass(r: Round, tries: seq<Act>, rest: seq<Act>) {
    function Acts(): seq<Act> {
      [Read(r.start)] + tries + [Read(r.start + r.delta)] + rest
    }

    ghost predicate Ok(p: Plan) {
      && Tries(tries, r.quota) && |Carried(tries)| == r.sent
      && (if r.delta >= p.ibg then rest == [] else Waits(rest, r.start + p.ibg))
    }
  }

  function ActsOf(passes: seq<Pass>): seq<Act> {
    if passes == [] then [] else ActsOf(passes[..|passes| - 1]) + passes[|passes| - 1].Acts()
  }

  lemma {:induction false} TriesAre(acts: seq<Act>, n: int)
    requires Tries(acts, n)
    ensures Attempts(acts) == n
  {
    if acts != [] {
      TriesAre(acts[..|acts| - 1], n - 1);
    }
  }

  lemma {:induction false} NoTries(acts: seq<Act>)
    requires forall i :: 0 <= i < |acts| ==> !acts[i].Try?
    ensures Carried(acts) == [] && Attempts(acts) == 0
  {
    if acts != [] {
      NoTries(acts[..|acts| - 1]);
    }
  }

  lemma RestTriesNothing(p: Plan, a: Pass)
    requires a.Ok(p)
    ensures forall i :: 0 <= i < |a.rest| ==> !a.rest[i].Try?
  {
  }

  /** A pass tries just its quota. */
  lemma PassTries(p: Plan, a: Pass)
    requires a.Ok(p)
    ensures Attempts(a.Acts()) == a.r.quota && Carried(a.Acts()) == Carried(a.tries)
  {
    hide Carried, Attempts;
    RestTriesNothing(p, a);
    var first, last := [Read(a.r.start)], [Read(a.r.start + a.r.delta)];
    TriesAre(a.tries, a.r.quota);
    NoTries(first);
    NoTries(last);
    NoTries(a.rest);
    ActsConcat(first, a.tries);
    ActsConcat(first + a.tries, last);
    ActsConcat(first + a.tries + last, a.rest);
  }

  ghost predicate Matches(p: Plan, passes: seq<Pass>, log: seq<Round>) {
    |passes| == |log| && forall k :: 0 <= k < |log| ==> passes[k].r == log[k] && passes[k].Ok(p)
  }

  /** So over any number of passes the worker tries what it was asked for, and what it sent is what did not
      fail. */
  lemma {:induction false} TriesItsQuota(p: Plan, passes: seq<Pass>, log: seq<Round>)
    requires Matches(p, passes, log)
    ensures Attempts(ActsOf(passes)) == Quota(log) && |Carried(ActsOf(passes))| == Sent(log)
    ensures AllSucceed(ActsOf(passes)) ==> Sent(log) == Quota(log)
    decreases |log|
  {
    hide Carried, Attempts, Pass.Ok, Pass.Acts;
    if log == [] {
      NoTries([]);
    } else {
      var n := |log| - 1;
      TriesItsQuota(p, passes[..n], log[..n]);
      PassTries(p, passes[n]);
      PassSent(p, passes[n]);
      ActsConcat(ActsOf(passes[..n]), passes[n].Acts());
    }
    if AllSucceed(ActsOf(passes)) {
      NothingFails(ActsOf(passes));
    }
  }

  lemma PassSent(p: Plan, a: Pass)
    requires a.Ok(p)
    ensures |Carried(a.tries)| == a.r.sent
  {
  }

  lemma MatchesMore(p: Plan, passes: seq<Pass>, log: seq<Round>, a: Pass)
    requires Matches(p, passes, log) && a.Ok(p)
    ensures Matches(p, passes + [a], log + [a.r]) && ActsOf(passes + [a]) == ActsOf(passes) + a.Acts()
  {
    assert (passes + [a])[..|passes|] == passes;
  }

  lemma Recorded(p: Plan, log: seq<Round>, r: Round)
    requires p.ibg >= 1 && Chained(p, log) && r.quota == NextQuota(p, log) && CanBegin(p, log, r.start)
    requires 0 <= r.sent <= r.quota && r.delta >= 0
    ensures Chained(p, log + [r]) && Sent(log + [r]) == Sent(log) + r.sent
    ensures CountedPkts(log + [r]) == CountedPkts(log) + Wrap(r.sent)
    ensures CountedBytes(p, log + [r]) == CountedBytes(p, log) + Wrap(p.psize * Wrap(r.sent))
    ensures NextQuota(p, log + [r]) == Due(p, r)
    ensures forall t :: CanBegin(p, log + [r], t) <==> t >= Free(p, r)
    ensures (log + [r])[..|log|] == log
  {
    assert (log + [r])[..|log|] == log;
    ChainedExtends(p, log, r);
  }

  // ----- The worker ----------------------------------------------------------------------------------

  ghost predicate Numbered(wire: seq<int>) {
    forall k :: 1 <= k < |wire| ==> wire[k] == Wrap(k)
  }

  /** The clock and the socket: time passes as it likes but not backwards, a sleep lasts at least as long as
      asked, and a send may fail. */
  class World {
    var clock: int             // the last time read, in microseconds
    ghost var acts: seq<Act>

    constructor (clock: int)
      ensures this.clock == clock && acts == []
    {
      this.clock, acts := clock, [];
    }

    method Now() returns (t: int)
      modifies this
      ensures t == clock >= old(clock) && acts == old(acts) + [Read(t)]
    {
      var later: int := *;
      clock := if later > clock then later else clock;
      t := clock;
      acts := acts + [Read(t)];
    }

    /** A reading that finds the clock moved on. */
    method Later() returns (t: int)
      modifies this
      ensures t == clock > old(clock) && acts == old(acts) + [Read(t)]
    {
      var later: int := *;
      clock := if later > clock then later else clock + 1;
      t := clock;
      acts := acts + [Read(t)];
    }

    method Sleep(d: int)
      requires d >= 0
      modifies this
      ensures clock >= old(clock) + d && acts == old(acts) + [Nap(d, clock)]
    {
      var later: int := *;
      clock := if later > clock + d then later else clock + d;
      acts := acts + [Nap(d, clock)];
    }

    method Send(num: int) returns (ok: bool)
      modifies `acts
      ensures acts == old(acts) + [Try(num, ok)]
    {
      ok := *;
      acts := acts + [Try(num, ok)];
    }
  }

  class Worker {
    const plan: Plan
    const world: World
    var seqNo: int       // of the last packet sent
    var stamp: int       // the number in the packet header
    var quota: int
    var npktsTx: int
    var nbytesTx: int
    ghost const epoch: int      // the clock when the worker was set up
    ghost var log: seq<Round>
    ghost var passes: seq<Pass>

    /** What the worker has done is what has passed between it and the world, pass by pass. */
    ghost predicate Valid()
      reads this, world
    {
      && Sane(plan) && Chained(plan, log)
      && quota == NextQuota(plan, log) && CanBegin(plan, log, world.clock)
      && epoch <= world.clock && (log != [] ==> epoch <= log[0].start)
      && Matches(plan, passes, log) && world.acts == ActsOf(passes)
      && Numbering(Sent(log))
      && npktsTx == CountedPkts(log) && nbytesTx == CountedBytes(plan, log)
    }

    /** `sent` packets have been sent, each numbered one more than the one before; only the first carries
        whatever the allocated header held. */
    ghost predicate Numbering(sent: int)
      reads this`seqNo, this`stamp, world`acts
    {
      var wire := Carried(world.acts);
      |wire| == sent && seqNo == Wrap(sent) && (sent > 0 ==> stamp == seqNo) && Numbered(wire)
    }

    constructor (plan: Plan, garbage: int, clock: int)
      requires Sane(plan)
      ensures Valid() && fresh(world) && this.plan == plan && log == [] && world.acts == []
      ensures epoch == world.clock == clock
    {
      this.plan, epoch := plan, clock;
      world := new World(clock);
      seqNo, stamp, quota := 0, garbage, plan.burst;
      npktsTx, nbytesTx := 0, 0;
      log, passes := [], [];
    }

    /** Short waits poll the clock, long ones sleep just what is missing; either way the clock has reached
        `till`. */
    method WaitUntil(till: int) returns (ghost rest: seq<Act>)
      modifies world
      ensures world.clock >= old(world.clock) && world.clock >= till
      ensures world.acts == old(world.acts) + rest && Waits(rest, till)
    {
      var n := world.Now();
      ghost var first := n;
      rest := [Read(n)];
      if n < till {
        if till - n < 100 {
          while n < till
            invariant n == world.clock >= old(world.clock)
            invariant world.acts == old(world.acts) + rest && rest != []
            invariant forall i :: 0 <= i < |rest| ==> rest[i].Read? && (i < |rest| - 1 ==> rest[i].t < till)
            invariant rest[0] == Read(first) && rest[|rest| - 1] == Read(n)
            decreases till - n
          {
            n := world.Later();
            rest := rest + [Read(n)];
          }
          return;
        }
        world.Sleep(till - n);
        rest := rest + [Nap(till - n, world.clock)];
      }
    }

    /** Tries the quota, packet by packet; a failed send is counted against the quota but keeps its number for
        the next packet. */
    method SendQuota() returns (next: int, ghost sent: int, ghost tries: seq<Act>)
      requires quota >= 0 && Numbering(|Carried(world.acts)|)
      modifies `stamp, world`acts
      ensures Tries(tries, quota) && |Carried(tries)| == sent <= quota && world.acts == old(world.acts) + tries
      ensures var wire := Carried(world.acts);
        && |wire| == old(|Carried(world.acts)|) + sent && Numbered(wire)
        && next == Wrap(|wire|) && (|wire| > 0 ==> stamp == next)
    {
      hide Carried, Attempts, Wrap;
      next, sent, tries := seqNo, 0, [];
      NoTries([]);
      for i := 0 to quota
        invariant Tries(tries, i) && |Carried(tries)| == sent <= i && world.acts == old(world.acts) + tries
        invariant |Carried(world.acts)| == old(|Carried(world.acts)|) + sent && Numbered(Carried(world.acts))
        invariant next == Wrap(|Carried(world.acts)|) && (|Carried(world.acts)| > 0 ==> stamp == next)
      {
        ghost var before := world.acts;
        var num := stamp;
        var ok := world.Send(num);
        OneMoreAct(before, Try(num, ok));
        OneMoreAct(tries, Try(num, ok));
        tries := tries + [Try(num, ok)];
        if ok {
          WrapAdds(|Carried(before)|, 1);
          sent := sent + 1;
          next := Wrap(next + 1);
          stamp := next;
        }
      }
    }

    method Count(next: int, ghost sent: int)
      requires var n := |Carried(world.acts)|; next == Wrap(n) && seqNo == Wrap(n - sent)
      modifies `npktsTx, `nbytesTx, `seqNo
      ensures npktsTx == old(npktsTx) + Wrap(sent)
      ensures nbytesTx == old(nbytesTx) + Wrap(plan.psize * Wrap(sent))
      ensures seqNo == next
    {
      WrapAdds(|Carried(world.acts)| - sent, sent);
      nbytesTx := nbytesTx + Wrap(plan.psize * Wrap(next - seqNo));
      npktsTx := npktsTx + Wrap(next - seqNo);
      seqNo := next;
    }

    method Refill(s: int) returns (delta: int, ghost rest: seq<Act>)
      requires Sane(plan) && world.clock >= s
      modifies world, `quota
      ensures delta >= 0 && s + delta >= old(world.clock)
      ensures quota == (if delta >= plan.ibg then plan.burst * delta / plan.ibg else plan.burst)
      ensures world.clock >= s + if delta >= plan.ibg then delta else plan.ibg
      ensures world.acts == old(world.acts) + [Read(s + delta)] + rest
      ensures if delta >= plan.ibg then rest == [] else Waits(rest, s + plan.ibg)
    {
      hide Waits;
      var t := world.Now();
      delta, rest := t - s, [];
      if delta >= plan.ibg {
        quota := plan.burst * delta / plan.ibg;
        return;
      }
      quota := plan.burst;
      rest := WaitUntil(s + plan.ibg);
    }

    /** The body of the sending loop. */
    method Burst() returns (ghost a: Pass)
      requires Sane(plan) && quota >= 0 && Numbering(|Carried(world.acts)|)
      modifies `stamp, `quota, `seqNo, `npktsTx, `nbytesTx, world
      ensures a.Ok(plan) && world.acts == old(world.acts) + a.Acts()
      ensures a.r.quota == old(quota) && 0 <= a.r.sent <= a.r.quota && a.r.delta >= 0
      ensures old(world.clock) <= a.r.start <= world.clock && world.clock >= Free(plan, a.r)
      ensures quota == Due(plan, a.r) && Numbering(old(|Carried(world.acts)|) + a.r.sent)
      ensures npktsTx == old(npktsTx) + Wrap(a.r.sent)
      ensures nbytesTx == old(nbytesTx) + Wrap(plan.psize * Wrap(a.r.sent))
    {
      hide Numbered, Wrap, Carried, Attempts, Waits;
      var s := world.Now();
      OneMoreAct(old(world.acts), Read(s));
      assert Carried(world.acts) == old(Carried(world.acts));
      var next, sent, tries := SendQuota();
      Count(next, sent);
      ghost var sofar := world.acts;
      var delta, rest := Refill(s);
      a := Pass(Round(s, old(quota), delta, sent), tries, rest);
      RestCarriesNone(sofar, a, plan);
      assert world.acts == old(world.acts) + a.Acts();
    }

    /** One turn of the sending loop. */
    method Turn()
      requires Valid()
      modifies this, world
      ensures Valid() && |log| == old(|log|) + 1 && log[..old(|log|)] == old(log)
      ensures old(world.clock) <= log[|log| - 1].start <= world.clock
      ensures old(world.acts) <= world.acts
    {
      hide Chained, Sent, CountedPkts, CountedBytes, Numbered, Wrap, Carried, Matches, ActsOf, Pass.Ok, Pass.Acts, Due,
           Free;
      QuotaNotNegative();
      ghost var a := Burst();
      Recorded(plan, log, a.r);
      MatchesMore(plan, passes, log, a);
      log, passes := log + [a.r], passes + [a];
    }

    lemma QuotaNotNegative()
      requires Valid()
      ensures quota >= 0
    {
    }

    method Run(rounds: nat)
      requires Valid()
      modifies this, world
      ensures Valid() && |log| == old(|log|) + rounds && log[..old(|log|)] == old(log)
      ensures old(world.clock) <= world.clock
      ensures forall k :: old(|log|) <= k < |log| ==> old(world.clock) <= log[k].start <= world.clock
      ensures old(world.acts) <= world.acts
    {
      hide Chained, Sent, CountedPkts, CountedBytes, Numbered, Wrap, Carried, Matches, ActsOf;
      for i := 0 to rounds
        invariant Valid() && |log| == old(|log|) + i && log[..old(|log|)] == old(log)
        invariant old(world.clock) <= world.clock
        invariant forall k :: old(|log|) <= k < |log| ==> old(world.clock) <= log[k].start <= world.clock
        invariant old(world.acts) <= world.acts
      {
        ghost var before := log;
        Turn();
        assert log[..|log| - 1] == before;
      }
    }
  }

  lemma RestCarriesNone(sofar: seq<Act>, a: Pass, p: Plan)
    requires a.Ok(p)
    ensures Carried(sofar + [Read(a.r.start + a.r.delta)] + a.rest) == Carried(sofar)
  {
    hide Carried, Attempts, Pass.Ok;
    RestTriesNothing(p, a);
    var last := [Read(a.r.start + a.r.delta)];
    NoTries(last);
    NoTries(a.rest);
    ActsConcat(sofar, last);
    ActsConcat(sofar + last, a.rest);
  }

  /** A whole run, from the command line: whatever the clock and the socket do, the worker tries just the
      packets it was asked for, those that do not fail are numbered without gaps, and the bits sent after the
      first burst stay within the rate bound for the time that has passed on the clock. */
  method SendAtRate(rateKbps: int, psize: int, garbage: int, clock: int, rounds: nat) returns (w: Worker)
    requires Parsed(rateKbps, psize) && rounds > 0
    ensures fresh(w) && w.Valid() && |w.log| == rounds
    ensures Numbered(Carried(w.world.acts)) && |Carried(w.world.acts)| == Sent(w.log)
    ensures Attempts(w.world.acts) == Quota(w.log)
    ensures AllSucceed(w.world.acts) ==> |Carried(w.world.acts)| == Quota(w.log)
    ensures clock <= w.log[0].start && w.log[rounds - 1].start <= w.world.clock
    ensures w.plan.psize == psize && w.plan.ibg % 1000 == 0
    ensures MeetsRate(rateKbps, psize, w.plan.ibg / 1000, w.plan.burst) && w.log[0].quota == w.plan.burst
    ensures var bits := psize * 8 * (|Carried(w.world.acts)| - w.plan.burst);
      var elapsed := w.world.clock - clock;
      && bits * 986 <= rateKbps * elapsed
      && (PktsPerSec(rateKbps, psize) >= 20 ==> bits * 1000 <= rateKbps * elapsed)
  {
    hide Carried, Attempts, ActsOf, Matches, Quota, Sent, CountedPkts, CountedBytes, AllSucceed;
    var ibgMs, burst := CalcPktsRate(rateKbps, psize);
    w := new Worker(Plan(psize, ibgMs * 1000, burst), garbage, clock);
    w.Run(rounds);
    TriesItsQuota(w.plan, w.passes, w.log);
    RateBound(rateKbps, ibgMs, w.plan, w.log);
    SentWithinQuota(w.plan, w.log);
    BitsMono(psize, Sent(w.log) - burst, Quota(w.log) - burst);
    MulMono(w.log[rounds - 1].start - w.log[0].start, w.world.clock - clock, rateKbps);
  }

  lemma BitsMono(psize: int, x: int, y: int)
    requires psize >= 0 && x <= y
    ensures psize * 8 * x <= psize * 8 * y
  {
  }
}
