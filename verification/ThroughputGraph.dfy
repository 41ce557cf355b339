/** The packet loop of the throughput graph (scripts/pcap-tpt-graph.py): packets are gathered by flow into
    buckets of at least a tenth of a second, and each bucket becomes rates and a fairness index. */
module ThroughputGraph {
  import opened JainIndex
  import opened Options

  const BKT_SZ := 0.1

  /** A captured packet; `flow` is its source port, if it could be decoded and is to a watched port. */
  datatype Pkt = Pkt(ts: real, flow: Option<int>, len: int)

  /** A dictionary from flow to load, with its keys in the order they were added. */
  datatype Bucket = Bucket(order: seq<int>, load: map<int, real>) {
    ghost predicate Ok() {
      && (forall i :: 0 <= i < |order| ==> order[i] in load)
      && (forall i, j :: 0 <= i < j < |order| ==> order[i] != order[j])
      && (forall f :: f in load ==> f in order && load[f] > 0.0)
    }

    function Of(f: int): real {
      if f in load then load[f] else 0.0
    }

    function Values(): (xs: seq<real>)
      requires Ok()
      ensures |xs| == |order| && AllPositive(xs)
    {
      seq(|order|, i requires 0 <= i < |order| && order[i] in load => load[order[i]])
    }

    function Put(f: int, len: real): (b: Bucket)
      requires Ok() && len > 0.0
      ensures b.Ok() && forall g :: b.Of(g) == Of(g) + if g == f then len else 0.0
    {
      if f in load then this.(load := load[f := load[f] + len])
      else Bucket(order + [f], load[f := len])
    }

    function Rates(d: real): (b: Bucket)
      requires Ok() && d > 0.0
      ensures b.Ok() && b.order == order
      ensures forall f :: f in load ==> b.load[f] == load[f] / d
    {
      RatesPositive(d);
      Bucket(order, map f | f in load :: load[f] / d)
    }

    lemma RatesPositive(d: real)
      requires Ok() && d > 0.0
      ensures forall f :: f in load ==> load[f] / d > 0.0
    {
    }
  }

  const EMPTY := Bucket([], map[])

  /** A bucket as it was when packet number `at`, at time `ts`, closed it, `length` seconds after it was
      opened. */
  datatype Closing = Closing(at: nat, ts: real, length: real, bytes: Bucket)

  function BytesOf(pkts: seq<Pkt>, f: int): int {
    if pkts == [] then 0
    else
      var p := pkts[|pkts| - 1];
      BytesOf(pkts[..|pkts| - 1], f) + if p.flow == Some(f) then p.len else 0
  }

  // ----- Which packet closes a bucket, and which packets it holds ------------------------------------

  /** Buckets are closed by the first packet and then by exactly those a tenth of a second or more after
      the last closing. */
  ghost predicate Cuts(pkts: seq<Pkt>, closings: seq<Closing>)
    decreases |closings|
  {
    if closings == [] then pkts == []
    else
      var n := |closings| - 1;
      CutsLast(pkts, closings) && Cuts(pkts[..closings[n].at], closings[..n])
  }

  /** The last closing is at a packet late enough, and no packet after it is late enough for another. */
  ghost predicate CutsLast(pkts: seq<Pkt>, closings: seq<Closing>)
    requires closings != []
  {
    var n := |closings| - 1;
    var c := closings[n];
    && c.at < |pkts| && c.ts == pkts[c.at].ts
    && c.length == c.ts - Opened(closings, n)
    && (n > 0 ==> c.ts >= closings[n - 1].ts + BKT_SZ)
    && forall i :: c.at < i < |pkts| ==> pkts[i].ts < c.ts + BKT_SZ
  }

  /** When the bucket that closing `k` ends was opened; the first one before the capture. */
  function Opened(closings: seq<Closing>, k: int): real
    requires 0 <= k <= |closings|
  {
    if k == 0 then -1.0 else closings[k - 1].ts
  }

  /** The bucket has counted every byte of every flow in `pkts`, and nothing else. */
  ghost predicate Holds(b: Bucket, pkts: seq<Pkt>) {
    b.Ok() && forall f :: b.Of(f) == BytesOf(pkts, f) as real
  }

  /** Every bucket holds the packets from one closing to the next, the open one those from the last. */
  ghost predicate Gathers(pkts: seq<Pkt>, closings: seq<Closing>, open: Bucket)
    decreases |closings|
  {
    if closings == [] then Holds(open, pkts)
    else
      var n := |closings| - 1;
      var c := closings[n];
      c.at <= |pkts| && Holds(open, pkts[c.at..]) && Gathers(pkts[..c.at], closings[..n], c.bytes)
  }

  lemma {:induction false} CutsStays(pkts: seq<Pkt>, closings: seq<Closing>, p: Pkt)
    requires Cuts(pkts, closings) && closings != [] && p.ts < closings[|closings| - 1].ts + BKT_SZ
    ensures Cuts(pkts + [p], closings)
  {
    var c := closings[|closings| - 1];
    assert (pkts + [p])[..c.at] == pkts[..c.at];
  }

  lemma {:induction false} CutsCloses(pkts: seq<Pkt>, closings: seq<Closing>, c: Closing, p: Pkt)
    requires Cuts(pkts, closings) && c.at == |pkts| && c.ts == p.ts
    requires c.length == c.ts - Opened(closings, |closings|)
    requires closings != [] ==> c.ts >= closings[|closings| - 1].ts + BKT_SZ
    ensures Cuts(pkts + [p], closings + [c])
  {
    assert CutsLast(pkts + [p], closings + [c]) by {
      hide Cuts;
      assert (pkts + [p])[c.at] == p && (closings + [c])[|closings|] == c;
    }
    hide CutsLast;
    assert (pkts + [p])[..c.at] == pkts && (closings + [c])[..|closings|] == closings;
  }

  /** The bucket after one more packet. */
  function Added(b: Bucket, p: Pkt): (r: Bucket)
    requires b.Ok() && p.len >= 1
    ensures r.Ok()
  {
    if p.flow.Some? then b.Put(p.flow.value, p.len as real) else b
  }

  lemma {:induction false} HoldsAdds(b: Bucket, pkts: seq<Pkt>, p: Pkt)
    requires Holds(b, pkts) && p.len >= 1
    ensures Holds(Added(b, p), pkts + [p])
  {
    assert (pkts + [p])[..|pkts|] == pkts;
  }

  lemma {:induction false} GathersStays(pkts: seq<Pkt>, closings: seq<Closing>, open: Bucket, p: Pkt)
    requires Gathers(pkts, closings, open) && open.Ok() && p.len >= 1
    ensures Gathers(pkts + [p], closings, Added(open, p))
  {
    hide Holds, Added;
    if closings == [] {
      HoldsAdds(open, pkts, p);
    } else {
      var c := closings[|closings| - 1];
      HoldsAdds(open, pkts[c.at..], p);
      assert (pkts + [p])[c.at..] == pkts[c.at..] + [p] && (pkts + [p])[..c.at] == pkts[..c.at];
    }
  }

  lemma {:induction false} GathersCloses(pkts: seq<Pkt>, closings: seq<Closing>, c: Closing)
    requires Gathers(pkts, closings, c.bytes) && c.at == |pkts|
    ensures Gathers(pkts, closings + [c], EMPTY)
  {
    assert pkts[c.at..] == [] && pkts[..c.at] == pkts && (closings + [c])[..|closings|] == closings;
  }

  /** The capture decides the closings: which packets they are, and when. */
  lemma {:induction false} ClosingsAreDetermined(pkts: seq<Pkt>, a: seq<Closing>, b: seq<Closing>)
    requires Cuts(pkts, a) && Cuts(pkts, b)
    ensures |a| == |b|
    ensures forall k :: 0 <= k < |a| ==> a[k].at == b[k].at && a[k].ts == b[k].ts && a[k].length == b[k].length
    decreases |pkts|
  {
    if pkts != [] {
      var n := |pkts| - 1;
      var x, y := a[|a| - 1].at, b[|b| - 1].at;
      if x < n {
        CutsBefore(pkts, a);
      } else {
        assert pkts[..x] == pkts[..n];
      }
      if y < n {
        CutsBefore(pkts, b);
      } else {
        assert pkts[..y] == pkts[..n];
      }
      var a', b' := if x < n then a else a[..|a| - 1], if y < n then b else b[..|b| - 1];
      ClosingsAreDetermined(pkts[..n], a', b');
    }
  }

  /** There are at most ten closings a second. */
  lemma {:induction false} TenASecond(pkts: seq<Pkt>, closings: seq<Closing>)
    requires Cuts(pkts, closings) && closings != []
    ensures (|closings| - 1) as real <= 10.0 * (closings[|closings| - 1].ts - closings[0].ts)
    decreases |closings|
  {
    var n := |closings| - 1;
    if n > 0 {
      TenASecond(pkts[..closings[n].at], closings[..n]);
    }
  }

  /** Packet `i` closes bucket `k`, or comes less than a tenth of a second after the packet that did. */
  ghost predicate BelongsTo(pkts: seq<Pkt>, closings: seq<Closing>, k: int, i: int)
    requires 0 <= i < |pkts|
  {
    && 0 <= k < |closings| && closings[k].at <= i
    && (closings[k].at == i || pkts[i].ts < closings[k].ts + 0.1)
  }

  /** And no packet is a tenth of a second away from the closing before it without closing a bucket itself. */
  lemma {:induction false} NoneIsMissed(pkts: seq<Pkt>, closings: seq<Closing>, i: int)
    requires Cuts(pkts, closings) && 0 <= i < |pkts|
    ensures exists k :: BelongsTo(pkts, closings, k, i)
    decreases |closings|
  {
    var n := |closings| - 1;
    var at := closings[n].at;
    if i < at {
      NoneIsMissed(pkts[..at], closings[..n], i);
      var k :| BelongsTo(pkts[..at], closings[..n], k, i);
      assert BelongsTo(pkts, closings, k, i);
    } else {
      assert BelongsTo(pkts, closings, n, i);
    }
  }

  lemma {:induction false} CutsBefore(pkts: seq<Pkt>, closings: seq<Closing>)
    requires Cuts(pkts, closings) && closings != [] && closings[|closings| - 1].at < |pkts| - 1
    ensures Cuts(pkts[..|pkts| - 1], closings)
  {
    var at := closings[|closings| - 1].at;
    assert pkts[..|pkts| - 1][..at] == pkts[..at];
  }

  // ----- What is drawn --------------------------------------------------------------------------------

  function ClosedBytes(closings: seq<Closing>, f: int): real {
    if closings == [] then 0.0
    else ClosedBytes(closings[..|closings| - 1], f) + closings[|closings| - 1].bytes.Of(f)
  }

  /** Buckets follow one another: each lasts from one closing to the next, a tenth of a second or more. */
  ghost predicate Consecutive(closings: seq<Closing>) {
    forall k :: 0 <= k < |closings| ==>
      && closings[k].bytes.Ok() && closings[k].length > 0.0
      && if k == 0 then closings[0].bytes.order == []
         else closings[k].length == closings[k].ts - closings[k - 1].ts >= BKT_SZ
  }

  function FlowsBefore(closings: seq<Closing>, k: int): int
    requires 0 <= k <= |closings|
  {
    if k == 0 then 0 else |closings[k - 1].bytes.order|
  }

  /** The rates to draw: one entry for every bucket that is not empty, at the time it was closed. */
  function RatesDrawn(closings: seq<Closing>): seq<(real, Bucket)>
    requires Consecutive(closings)
  {
    if closings == [] then []
    else
      var c := closings[|closings| - 1];
      RatesDrawn(closings[..|closings| - 1]) + if c.bytes.order != [] then [(c.ts, c.bytes.Rates(c.length))] else []
  }

  /** The indices to draw, of the bytes of each bucket: one entry for every bucket with as many flows as
      the one before. */
  function IndicesDrawn(closings: seq<Closing>): seq<(real, real)>
    requires Consecutive(closings)
  {
    if closings == [] then []
    else
      var n := |closings| - 1;
      var c := closings[n];
      IndicesDrawn(closings[..n])
      + if |c.bytes.order| == FlowsBefore(closings, n) then [(c.ts, Jain(c.bytes.Values()))] else []
  }

  /** The rates of bucket `k`, which holds some flow: the bytes of each of its flows over its length, drawn when
      it was closed. */
  ghost predicate RatesOf(closings: seq<Closing>, k: int, t: real, rates: Bucket) {
    && 0 <= k < |closings| && closings[k].bytes.Ok() && closings[k].bytes.order != []
    && t == closings[k].ts && rates.order == closings[k].bytes.order
    && forall f :: f in closings[k].bytes.load ==>
         f in rates.load && Times(rates.load[f], closings[k].length) == closings[k].bytes.load[f]
  }

  lemma RatesAre(b: Bucket, d: real)
    requires b.Ok() && d > 0.0
    ensures forall f :: f in b.load ==> f in b.Rates(d).load && Times(b.Rates(d).load[f], d) == b.load[f]
  {
    forall f | f in b.load
      ensures f in b.Rates(d).load && Times(b.Rates(d).load[f], d) == b.load[f]
    {
      QuotientIs(b.load[f], d);
    }
  }

  ghost predicate RatesAt(closings: seq<Closing>, k: int, i: int)
    requires Consecutive(closings)
  {
    && 0 <= i < |RatesDrawn(closings)|
    && RatesOf(closings, k, RatesDrawn(closings)[i].0, RatesDrawn(closings)[i].1)
  }

  lemma LastRates(closings: seq<Closing>)
    requires Consecutive(closings) && closings != []
    ensures var n := |closings| - 1;
      var before := RatesDrawn(closings[..n]);
      if closings[n].bytes.order != [] then
        |RatesDrawn(closings)| == |before| + 1 && before <= RatesDrawn(closings) && RatesAt(closings, n, |before|)
      else RatesDrawn(closings) == before
  {
    hide Bucket.Rates, Times;
    var c := closings[|closings| - 1];
    RatesAre(c.bytes, c.length);
  }

  /** Every bucket that holds a flow is drawn, and only such buckets are. */
  lemma {:induction false} EveryRateIsDrawn(closings: seq<Closing>, k: int)
    requires Consecutive(closings) && 0 <= k < |closings| && closings[k].bytes.order != []
    ensures exists i :: RatesAt(closings, k, i)
    decreases |closings|
  {
    hide RatesDrawn;
    var n := |closings| - 1;
    LastRates(closings);
    if k < n {
      EveryRateIsDrawn(closings[..n], k);
      var i :| RatesAt(closings[..n], k, i);
      assert RatesAt(closings, k, i);
    }
  }

  lemma {:induction false} EveryRateDrawnIs(closings: seq<Closing>, i: int)
    requires Consecutive(closings) && 0 <= i < |RatesDrawn(closings)|
    ensures exists k :: RatesAt(closings, k, i)
    decreases |closings|
  {
    hide RatesDrawn;
    RatesOfNone();
    var n := |closings| - 1;
    LastRates(closings);
    if i < |RatesDrawn(closings[..n])| {
      EveryRateDrawnIs(closings[..n], i);
      var k :| RatesAt(closings[..n], k, i);
      assert RatesAt(closings, k, i);
    }
  }

  lemma RatesOfNone()
    ensures RatesDrawn([]) == []
  {
  }

  /** Nothing is lost: the bytes of a flow are in the closed buckets or in the one still open. */
  ghost predicate Conserved(pkts: seq<Pkt>, closings: seq<Closing>, open: Bucket) {
    forall f :: ClosedBytes(closings, f) + open.Of(f) == BytesOf(pkts, f) as real
  }

  lemma {:induction false} BytesConcat(a: seq<Pkt>, b: seq<Pkt>, f: int)
    ensures BytesOf(a + b, f) == BytesOf(a, f) + BytesOf(b, f)
    decreases |b|
  {
    if b == [] {
      assert a + b == a;
    } else {
      BytesConcat(a, b[..|b| - 1], f);
      assert (a + b)[..|a + b| - 1] == a + b[..|b| - 1];
    }
  }

  lemma {:induction false} GathersConserves(pkts: seq<Pkt>, closings: seq<Closing>, open: Bucket)
    requires Gathers(pkts, closings, open)
    ensures Conserved(pkts, closings, open)
    decreases |closings|
  {
    if closings != [] {
      var n := |closings| - 1;
      var at := closings[n].at;
      GathersConserves(pkts[..at], closings[..n], closings[n].bytes);
      assert pkts == pkts[..at] + pkts[at..];
      forall f
        ensures ClosedBytes(closings, f) + open.Of(f) == BytesOf(pkts, f) as real
      {
        BytesConcat(pkts[..at], pkts[at..], f);
      }
    }
  }

  // ----- The packet loop ------------------------------------------------------------------------------

  datatype Gathering = Gathering(closings: seq<Closing>, open: Bucket)

  ghost predicate Captured(pkts: seq<Pkt>) {
    forall i :: 0 <= i < |pkts| ==> pkts[i].ts >= 0.0 && pkts[i].len >= 1
  }

  predicate Closes(closings: seq<Closing>, ts: real) {
    closings == [] || ts >= closings[|closings| - 1].ts + BKT_SZ
  }

  /** The bucket that packet number `at`, at time `ts`, would close. */
  function ClosingAt(g: Gathering, at: nat, ts: real): Closing {
    Closing(at, ts, ts - Opened(g.closings, |g.closings|), g.open)
  }

  /** One more packet: it closes the open bucket if it is late enough, and is counted in the bucket that
      is then open. */
  function Next(g: Gathering, at: nat, p: Pkt): (r: Gathering)
    requires g.open.Ok() && p.len >= 1
    ensures r.open.Ok() && r.closings != []
  {
    if Closes(g.closings, p.ts) then Gathering(g.closings + [ClosingAt(g, at, p.ts)], Added(EMPTY, p))
    else g.(open := Added(g.open, p))
  }

  /** The closings of a capture and the bucket it leaves open, packet by packet. */
  ghost function Gather(pkts: seq<Pkt>): (g: Gathering)
    requires Captured(pkts)
    ensures g.open.Ok() && (pkts == [] ==> g == Gathering([], EMPTY)) && (pkts != [] ==> g.closings != [])
  {
    if pkts == [] then Gathering([], EMPTY)
    else
      var n := |pkts| - 1;
      Next(Gather(pkts[..n]), n, pkts[n])
  }

  lemma GatherNext(pkts: seq<Pkt>, i: nat)
    requires Captured(pkts) && i < |pkts|
    ensures Captured(pkts[..i]) && Captured(pkts[..i + 1])
    ensures Gather(pkts[..i + 1]) == Next(Gather(pkts[..i]), i, pkts[i])
  {
    assert pkts[..i + 1][..i] == pkts[..i];
  }

  /** What has been gathered is sound: buckets are closed when they should be, and each holds what it
      should. */
  ghost predicate Sound(pkts: seq<Pkt>, g: Gathering) {
    && Cuts(pkts, g.closings) && Gathers(pkts, g.closings, g.open) && Consecutive(g.closings)
    && (g.closings != [] ==> g.closings[|g.closings| - 1].ts >= 0.0)
    && (pkts == [] ==> g == Gathering([], EMPTY))
  }

  lemma NextIsSound(pkts: seq<Pkt>, g: Gathering, p: Pkt)
    requires Sound(pkts, g) && g.open.Ok() && p.ts >= 0.0 && p.len >= 1 && (g.closings == [] ==> g.open == EMPTY)
    ensures Sound(pkts + [p], Next(g, |pkts|, p))
  {
    hide Cuts, Gathers, Added, Consecutive;
    if Closes(g.closings, p.ts) {
      var c := ClosingAt(g, |pkts|, p.ts);
      CutsCloses(pkts, g.closings, c, p);
      GathersCloses(pkts, g.closings, c);
      ConsecutiveExtends(g.closings, c);
      GathersStays(pkts, g.closings + [c], EMPTY, p);
    } else {
      CutsStays(pkts, g.closings, p);
      GathersStays(pkts, g.closings, g.open, p);
    }
  }

  lemma {:induction false} GatherIsSound(pkts: seq<Pkt>)
    requires Captured(pkts)
    ensures Sound(pkts, Gather(pkts))
    decreases |pkts|
  {
    NothingYet();
    hide Sound, Next, Bucket.Ok;
    if pkts == [] {
      EmptyIsSound();
    } else {
      var n := |pkts| - 1;
      assert pkts[..n] + [pkts[n]] == pkts;
      GatherIsSound(pkts[..n]);
      NextIsSound(pkts[..n], Gather(pkts[..n]), pkts[n]);
    }
  }

  lemma EmptyIsSound()
    ensures Sound([], Gathering([], EMPTY))
  {
    NothingYet();
  }

  method Graph(pkts: seq<Pkt>) returns (buckets: seq<(real, Bucket)>, jain: seq<(real, real)>, open: Bucket)
    requires Captured(pkts)
    ensures var g := Gather(pkts);
      && Cuts(pkts, g.closings) && Gathers(pkts, g.closings, open) && Conserved(pkts, g.closings, open)
      && Consecutive(g.closings) && buckets == RatesDrawn(g.closings) && jain == IndicesDrawn(g.closings)
  {
    hide Jain, RatesDrawn, IndicesDrawn, Bucket.Values, Bucket.Put, Bucket.Rates, Consecutive, FlowsBefore, Cuts,
         Gathers, Conserved, Added, Gather, Captured, Bucket.Ok;
    var start, prev := -1.0, 0;
    ghost var closings := [];
    buckets, jain, open := [], [], EMPTY;
    NothingYet();
    assert Captured(pkts[..0]) by { EmptyCapture(pkts); }
    for i := 0 to |pkts|
      invariant Captured(pkts[..i]) && Gather(pkts[..i]) == Gathering(closings, open)
      invariant open.Ok() && Consecutive(closings) && (closings == [] ==> open == EMPTY)
      invariant buckets == RatesDrawn(closings) && jain == IndicesDrawn(closings)
      invariant prev == FlowsBefore(closings, |closings|)
      invariant start == Opened(closings, |closings|) && (closings != [] ==> start >= 0.0)
    {
      var p := pkts[i];
      GatherNext(pkts, i);
      PacketIs(pkts, i);
      if start + BKT_SZ <= p.ts || start == -1.0 {
        ghost var c := ClosingAt(Gathering(closings, open), i, p.ts);
        var rates := open.Rates(p.ts - start);
        if rates.order != [] {
          buckets := buckets + [(p.ts, rates)];
        }
        if prev == |rates.order| {
          jain := jain + [(p.ts, Jain(rates.Values()))];
        }
        ConsecutiveExtends(closings, c);
        DrawOne(closings, c);
        prev, start, open := |rates.order|, p.ts, EMPTY;
        closings := closings + [c];
      }
      open := Added(open, p);
    }
    assert pkts[..|pkts|] == pkts;
    GatherIsSound(pkts);
    GathersConserves(pkts, closings, open);
  }

  lemma EmptyCapture(pkts: seq<Pkt>)
    ensures Captured(pkts[..0]) && pkts[..0] == []
  {
  }

  lemma PacketIs(pkts: seq<Pkt>, i: nat)
    requires Captured(pkts) && i < |pkts|
    ensures pkts[i].ts >= 0.0 && pkts[i].len >= 1
  {
  }

  lemma ConsecutiveExtends(closings: seq<Closing>, c: Closing)
    requires Consecutive(closings) && c.bytes.Ok() && c.length > 0.0
    requires if closings == [] then c.bytes.order == []
             else c.length == c.ts - closings[|closings| - 1].ts >= BKT_SZ
    ensures Consecutive(closings + [c]) && FlowsBefore(closings + [c], |closings| + 1) == |c.bytes.order|
  {
  }

  lemma DrawOne(closings: seq<Closing>, c: Closing)
    requires Consecutive(closings) && Consecutive(closings + [c]) && c.bytes.Ok() && c.length > 0.0
    ensures RatesDrawn(closings + [c])
      == RatesDrawn(closings) + if c.bytes.order != [] then [(c.ts, c.bytes.Rates(c.length))] else []
    ensures IndicesDrawn(closings + [c])
      == IndicesDrawn(closings) + if |c.bytes.order| == FlowsBefore(closings, |closings|)
                                  then [(c.ts, Jain(c.bytes.Rates(c.length).Values()))] else []
  {
    JainOfRates(c.bytes, c.length);
    hide Jain, Bucket.Values, Bucket.Rates;
    assert (closings + [c])[..|closings|] == closings;
  }

  lemma NothingYet()
    ensures Cuts([], []) && Gathers([], [], EMPTY) && Consecutive([]) && FlowsBefore([], 0) == 0 && EMPTY.Ok()
    ensures RatesDrawn([]) == [] && IndicesDrawn([]) == []
  {
  }

  lemma JainOfRates(b: Bucket, d: real)
    requires b.Ok() && d > 0.0
    ensures Jain(b.Rates(d).Values()) == Jain(b.Values())
  {
    JainScales(b.Values(), d);
    assert b.Rates(d).Values() == Over(b.Values(), d);
  }

  ghost predicate FairAmong(x: real, n: nat) {
    if n == 0 then x == 0.0 else 1.0 / n as real <= x <= 1.0
  }

  /** The index `x` is that of bucket `k`, drawn when it was closed: 0 for a bucket without flows, and
      between `1/n` and 1 for the number `n` of its flows. */
  ghost predicate IndexOf(closings: seq<Closing>, k: int, t: real, x: real) {
    && 0 <= k < |closings| && closings[k].bytes.Ok()
    && t == closings[k].ts && x == Jain(closings[k].bytes.Values())
    && FairAmong(x, |closings[k].bytes.order|)
  }

  /** Every index drawn is that of one of the buckets, and the times drawn at go up. */
  lemma {:induction false} IndicesAreFair(closings: seq<Closing>, i: int)
    requires Consecutive(closings) && 0 <= i < |IndicesDrawn(closings)|
    ensures var (t, x) := IndicesDrawn(closings)[i];
      && (exists k :: IndexOf(closings, k, t, x))
      && t <= closings[|closings| - 1].ts
      && (i > 0 ==> IndicesDrawn(closings)[i - 1].0 < t)
    decreases |closings|
  {
    hide Jain, Bucket.Values, FairAmong;
    var n := |closings| - 1;
    var c, init := closings[n], closings[..n];
    var (t, x) := IndicesDrawn(closings)[i];
    if i > 0 && i - 1 < |IndicesDrawn(init)| {
      IndicesAreFair(init, i - 1);
    }
    if i < |IndicesDrawn(init)| {
      IndicesAreFair(init, i);
      assert IndicesDrawn(closings)[i] == IndicesDrawn(init)[i];
      var k :| IndexOf(init, k, t, x);
      assert IndexOf(closings, k, t, x);
    } else {
      FairIndex(c.bytes);
      assert IndexOf(closings, n, t, x);
    }
  }

  /** Entry `i` of the indices is that of bucket `k`. */
  ghost predicate IndexAt(closings: seq<Closing>, k: int, i: int)
    requires Consecutive(closings)
  {
    && 0 <= i < |IndicesDrawn(closings)|
    && IndexOf(closings, k, IndicesDrawn(closings)[i].0, IndicesDrawn(closings)[i].1)
  }

  lemma LastIndex(closings: seq<Closing>)
    requires Consecutive(closings) && closings != []
    ensures var n := |closings| - 1;
      var before := IndicesDrawn(closings[..n]);
      if |closings[n].bytes.order| == FlowsBefore(closings, n) then
        |IndicesDrawn(closings)| == |before| + 1 && before <= IndicesDrawn(closings) && IndexAt(closings, n, |before|)
      else IndicesDrawn(closings) == before
  {
    hide Jain, Bucket.Values, FairAmong;
    FairIndex(closings[|closings| - 1].bytes);
  }

  /** An index is drawn for every bucket with as many flows as the one before it, 0 of them before the first. */
  lemma {:induction false} EveryIndexIsDrawn(closings: seq<Closing>, k: int)
    requires Consecutive(closings) && 0 <= k < |closings|
    requires |closings[k].bytes.order| == if k == 0 then 0 else |closings[k - 1].bytes.order|
    ensures exists i :: IndexAt(closings, k, i)
    decreases |closings|
  {
    hide Jain, Bucket.Values, FairAmong, IndicesDrawn;
    var n := |closings| - 1;
    LastIndex(closings);
    if k < n {
      EveryIndexIsDrawn(closings[..n], k);
      var i :| IndexAt(closings[..n], k, i);
      assert IndexAt(closings, k, i);
    }
  }

  lemma FairIndex(b: Bucket)
    requires b.Ok()
    ensures FairAmong(Jain(b.Values()), |b.order|)
  {
    if b.order != [] {
      JainBounds(b.Values());
    }
  }
}
