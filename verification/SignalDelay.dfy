/** The signal delay of a link log (scripts/mm-throughput-graph): how long a message created at a given
    millisecond takes to reach the receiver, filled in backwards from the messages that departed. Times
    are whole milliseconds. */
module SignalDelay {
  import opened IntSets

  datatype Departure = Departure(ts: int, delay: int) {
    function Created(): int {
      ts - delay
    }
  }

  /** `NoDepartures` stands for the way a log without departures ends: the script divides by their number
      before it comes to its own check for them. */
  datatype Error = InvalidDelay | InvalidTimestamp | NoDepartures

  datatype Result<T> = Ok(value: T) | Err(error: Error)

  /** `m` maps the creation times of the messages in `log` to the least delay of each. */
  ghost predicate Aggregated(log: seq<Departure>, m: map<int, int>) {
    Covers(log, m) && Witnessed(log, m)
  }

  ghost predicate Covers(log: seq<Departure>, m: map<int, int>) {
    forall e :: e in log ==> e.Created() in m && m[e.Created()] <= e.delay
  }

  ghost predicate Witnessed(log: seq<Departure>, m: map<int, int>) {
    forall s :: s in m ==> IsFirst(log, m, s)
  }

  /** Some message created at `s` has the delay that `m` gives it. */
  ghost predicate IsFirst(log: seq<Departure>, m: map<int, int>, s: int)
    requires s in m
  {
    exists e :: e in log && e.Created() == s && e.delay == m[s]
  }

  /** A message departs no earlier than it was created, and was not created before time 0. */
  ghost predicate Possible(e: Departure) {
    0 <= e.Created() <= e.ts
  }

  ghost predicate Accepted(log: seq<Departure>, n: int)
    requires n <= |log|
  {
    forall i :: 0 <= i < n ==> Possible(log[i])
  }

  ghost predicate FirstRejected(log: seq<Departure>, i: int) {
    0 <= i < |log| && !Possible(log[i]) && Accepted(log, i)
  }

  /** What a later delay for the same creation time leaves in the table. */
  function Noted(m: map<int, int>, e: Departure): map<int, int> {
    m[e.Created() := if e.Created() in m && m[e.Created()] <= e.delay then m[e.Created()] else e.delay]
  }

  /** Reads the departures in order and stops at the first that is not acceptable. */
  method Aggregate(log: seq<Departure>) returns (r: Result<map<int, int>>)
    ensures r.Ok? ==> Accepted(log, |log|) && Aggregated(log, r.value) && exists s :: s in r.value
    ensures r == Err(NoDepartures) ==> log == []
    ensures r == Err(InvalidDelay) ==> exists i :: FirstRejected(log, i) && log[i].delay < 0
    ensures r == Err(InvalidTimestamp) ==> exists i :: FirstRejected(log, i) && log[i].delay >= 0
  {
    hide Aggregated;
    var m: map<int, int> := map[];
    AggregatedEmpty();
    for i := 0 to |log|
      invariant Accepted(log, i) && Aggregated(log[..i], m)
    {
      var e := log[i];
      if e.delay < 0 {
        assert FirstRejected(log, i);
        return Err(InvalidDelay);
      }
      if e.ts - e.delay < 0 {
        assert FirstRejected(log, i);
        return Err(InvalidTimestamp);
      }
      AggregatedExtends(log[..i], m, e);
      m := Noted(m, e);
      assert log[..i] + [e] == log[..i + 1];
    }
    assert log[..|log|] == log;
    if |log| == 0 {
      return Err(NoDepartures);
    }
    AggregatedHolds(log, m);
    r := Ok(m);
  }

  lemma AggregatedEmpty()
    ensures Aggregated([], map[])
  {
  }

  lemma AggregatedHolds(log: seq<Departure>, m: map<int, int>)
    requires Aggregated(log, m) && log != []
    ensures exists s :: s in m
  {
    assert log[0] in log;
  }

  lemma AggregatedExtends(log: seq<Departure>, m: map<int, int>, e: Departure)
    requires Aggregated(log, m)
    ensures Aggregated(log + [e], Noted(m, e))
  {
  }

  // ----- Filling backwards ---------------------------------------------------------------------------

  /** `s` is the first sampled time at or after `ts`. */
  ghost predicate IsNext(m: map<int, int>, ts: int, s: int) {
    s in m && ts <= s && forall k :: k in m && ts <= k ==> s <= k
  }

  ghost predicate IsEarliest(m: map<int, int>, lo: int) {
    lo in m && forall k :: k in m ==> lo <= k
  }

  ghost predicate IsLatest(m: map<int, int>, hi: int) {
    hi in m && forall k :: k in m ==> k <= hi
  }

  /** The filled value at `ts`: the gap to the next sampled time and its delay. */
  ghost predicate FilledAt(m: map<int, int>, ts: int, v: int) {
    exists s :: IsNext(m, ts, s) && v == s - ts + m[s]
  }

  ghost predicate Filled(m: map<int, int>, r: map<int, int>) {
    && (forall ts :: ts in r <==> exists lo, hi :: IsEarliest(m, lo) && IsLatest(m, hi) && lo <= ts <= hi)
    && forall ts :: ts in r ==> FilledAt(m, ts, r[ts])
  }

  /** The backward loop: every millisecond between the first and the last sampled time gets a value,
      equal to the gap to the next sampled time plus its delay. */
  method Fill(m: map<int, int>) returns (r: map<int, int>)
    requires exists s :: s in m
    ensures Filled(m, r)
  {
    hide FilledAt, Filled;
    KeysHaveEnds(m);
    var lo :| lo in m && forall k | k in m :: lo <= k;
    var hi :| hi in m && forall k | k in m :: k <= hi;
    r := m;
    var ts := hi;
    while ts >= lo
      invariant lo - 1 <= ts <= hi
      invariant forall k :: k in r <==> k in m || ts < k <= hi
      invariant forall k :: k in m ==> r[k] == m[k]
      invariant forall k :: ts < k <= hi ==> FilledAt(m, k, r[k])
    {
      if ts !in r {
        FilledDown(m, ts, r[ts + 1]);
        r := r[ts := r[ts + 1] + 1];
      } else {
        FilledBySample(m, ts);
      }
      ts := ts - 1;
    }
    FilledBetween(m, r, lo, hi);
  }

  lemma FilledBySample(m: map<int, int>, ts: int)
    requires ts in m
    ensures FilledAt(m, ts, m[ts])
  {
  }

  lemma FilledBetween(m: map<int, int>, r: map<int, int>, lo: int, hi: int)
    requires IsEarliest(m, lo) && IsLatest(m, hi)
    requires forall k :: k in r <==> lo <= k <= hi
    requires forall k :: lo <= k <= hi ==> FilledAt(m, k, r[k])
    ensures Filled(m, r)
  {
  }

  lemma FilledDown(m: map<int, int>, ts: int, v: int)
    requires ts !in m && FilledAt(m, ts + 1, v)
    ensures FilledAt(m, ts, v + 1)
  {
  }

  lemma KeysHaveEnds(m: map<int, int>)
    requires exists s :: s in m
    ensures exists lo :: lo in m && forall k | k in m :: lo <= k
    ensures exists hi :: hi in m && forall k | k in m :: k <= hi
  {
    var keys := m.Keys;
    var negated := set k | k in keys :: -k;
    var s :| s in m;
    assert s in keys && -s in negated;
    var lo, hi := Least(keys), -Least(negated);
    forall k | k in m ensures k <= hi {
      assert -k in negated;
    }
  }

  // ----- What the filled values mean -----------------------------------------------------------------

  /** `v` is the least time from `ts` to a departure of a message created at or after `ts`. */
  ghost predicate Soonest(log: seq<Departure>, ts: int, v: int) {
    && (exists e :: e in log && e.Created() >= ts && v == e.ts - ts)
    && forall e :: e in log && e.Created() >= ts ==> v <= e.ts - ts
  }

  /** Messages created later depart no earlier, each counted by its first departure. */
  ghost predicate InOrder(m: map<int, int>) {
    forall s, t :: s in m && t in m && s <= t ==> s + m[s] <= t + m[t]
  }

  /** The filled value is never too small. */
  lemma NeverTooSmall(log: seq<Departure>, m: map<int, int>, r: map<int, int>, ts: int, v: int)
    requires Aggregated(log, m) && Filled(m, r) && ts in r && Soonest(log, ts, v)
    ensures r[ts] >= v
  {
  }

  /** It is the time to the soonest departure, at every millisecond, if and only if messages depart in
      the order of their creation. */
  lemma SoonestIffInOrder(log: seq<Departure>, m: map<int, int>, r: map<int, int>)
    requires Aggregated(log, m) && Filled(m, r)
    ensures (forall ts :: ts in r ==> Soonest(log, ts, r[ts])) <==> InOrder(m)
  {
    hide Filled;
    if InOrder(m) {
      forall ts | ts in r
        ensures Soonest(log, ts, r[ts])
      {
        FilledHolds(m, r, ts);
        InOrderIsSoonest(log, m, ts, r[ts]);
      }
    }
    if forall ts :: ts in r ==> Soonest(log, ts, r[ts]) {
      forall s, t | s in m && t in m && s <= t
        ensures s + m[s] <= t + m[t]
      {
        SampledIsFilled(m, r, s);
        assert Soonest(log, s, m[s]);
        assert IsFirst(log, m, t);
        var e :| e in log && e.Created() == t && e.delay == m[t];
      }
    }
  }

  lemma FilledHolds(m: map<int, int>, r: map<int, int>, ts: int)
    requires Filled(m, r) && ts in r
    ensures FilledAt(m, ts, r[ts])
  {
  }

  lemma InOrderIsSoonest(log: seq<Departure>, m: map<int, int>, ts: int, v: int)
    requires Aggregated(log, m) && InOrder(m) && FilledAt(m, ts, v)
    ensures Soonest(log, ts, v)
  {
  }

  /** At a sampled time the filled value is the sample. */
  lemma SampledIsFilled(m: map<int, int>, r: map<int, int>, s: int)
    requires Filled(m, r) && s in m
    ensures s in r && r[s] == m[s]
  {
    KeysHaveEnds(m);
    var lo :| lo in m && forall k | k in m :: lo <= k;
    var hi :| hi in m && forall k | k in m :: k <= hi;
    assert IsEarliest(m, lo) && IsLatest(m, hi) && lo <= s <= hi;
    var t :| IsNext(m, s, t) && r[s] == t - s + m[t];
  }

  /** With a message that overtakes another the filled value is too large: created at 2 and 3, departed
      at 12 and 4. */
  lemma OvertakingMisleads()
    ensures var log, m := [Departure(4, 1), Departure(12, 10)], map[2 := 10, 3 := 1];
      Aggregated(log, m) && Filled(m, m) && m[2] == 10 && Soonest(log, 2, 2)
  {
    hide Aggregated, Filled, Soonest;
    OvertakingLog();
    OvertakingFill();
    SoonestOfTwo(Departure(4, 1), Departure(12, 10), 2);
  }

  lemma OvertakingLog()
    ensures Aggregated([Departure(4, 1), Departure(12, 10)], map[2 := 10, 3 := 1])
  {
  }

  lemma OvertakingFill()
    ensures Filled(map[2 := 10, 3 := 1], map[2 := 10, 3 := 1])
  {
    var m := map[2 := 10, 3 := 1];
    FilledBySample(m, 2);
    FilledBySample(m, 3);
    FilledBetween(m, m, 2, 3);
  }

  lemma SoonestOfTwo(a: Departure, b: Departure, ts: int)
    requires a.Created() >= ts && a.ts <= b.ts
    ensures Soonest([a, b], ts, a.ts - ts)
  {
  }
}
