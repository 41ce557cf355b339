/** The sliding-window extremum `win` (vns/vns_utils.cc:36-79): a monotonic deque with a cached
    extremum, whose length may be changed between samples.

    `Window` is the reference: it keeps every sample since the last clear and the index of the
    oldest one still inside the window. `Win` is the deque; its methods are proved to implement
    `Window`, and the lemmas say what a `Window` means over whole runs. */
module SlidingWindow {
  import opened Doubles

  datatype Sample = Sample(ts: real, v: real)

  /** `a` is strictly better than `b`: smaller in a min window, larger in a max window. */
  predicate Beats(isMin: bool, a: real, b: real) {
    if isMin then a < b else a > b
  }

  /** The value of a window that has no sample yet. */
  function Sentinel(isMin: bool): real {
    if isMin then DOUBLE_MAX else DOUBLE_MIN
  }

  /** Time stamps never decrease. */
  ghost predicate Ordered(h: seq<Sample>) {
    |h| > 1 ==> h[|h| - 2].ts <= h[|h| - 1].ts && Ordered(h[..|h| - 1])
  }

  lemma {:induction false} OrderedAt(h: seq<Sample>, i: nat, j: nat)
    requires Ordered(h) && i <= j < |h|
    ensures h[i].ts <= h[j].ts
  {
    if i < j {
      if j < |h| - 1 {
        OrderedAt(h[..|h| - 1], i, j);
      } else {
        OrderedAt(h[..|h| - 1], i, j - 1);
      }
    }
  }

  lemma OrderedPush(h: seq<Sample>, s: Sample)
    requires Ordered(h) && (h == [] || h[|h| - 1].ts <= s.ts)
    ensures Ordered(h + [s])
  {
  }

  /** No later sample strictly beats sample `i`. */
  ghost predicate Unbeaten(isMin: bool, h: seq<Sample>, i: nat)
    requires i < |h|
  {
    forall j | i < j < |h| :: !Beats(isMin, h[j].v, h[i].v)
  }

  /** The samples of `h[lo..]` that no later sample strictly beats, oldest first. */
  ghost function Kept(isMin: bool, h: seq<Sample>, lo: nat): seq<Sample>
    decreases |h| - lo
  {
    if lo >= |h| then []
    else (if Unbeaten(isMin, h, lo) then [h[lo]] else []) + Kept(isMin, h, lo + 1)
  }

  /** The brute-force extremum of `h[lo..]`. */
  ghost function Best(isMin: bool, h: seq<Sample>, lo: nat): (b: real)
    requires lo < |h|
    decreases |h| - lo
  {
    if lo == |h| - 1 then h[lo].v
    else
      var b := Best(isMin, h, lo + 1);
      if Beats(isMin, b, h[lo].v) then b else h[lo].v
  }

  lemma {:induction false} BestIs(isMin: bool, h: seq<Sample>, lo: nat)
    requires lo < |h|
    ensures forall i | lo <= i < |h| :: !Beats(isMin, h[i].v, Best(isMin, h, lo))
    ensures exists i | lo <= i < |h| :: h[i].v == Best(isMin, h, lo)
    decreases |h| - lo
  {
    if lo == |h| - 1 {
      assert h[lo].v == Best(isMin, h, lo);
    } else {
      BestIs(isMin, h, lo + 1);
    }
  }

  /** The first index from `i` on that is not older than `cut`; never past the newest sample. */
  function FirstLive(h: seq<Sample>, i: nat, cut: real): (k: nat)
    requires i < |h|
    ensures i <= k < |h|
    decreases |h| - i
  {
    if i == |h| - 1 || h[i].ts >= cut then i else FirstLive(h, i + 1, cut)
  }

  lemma {:induction false} FirstLiveIs(h: seq<Sample>, i: nat, cut: real)
    requires i < |h|
    ensures var k := FirstLive(h, i, cut);
      (forall j | i <= j < k :: h[j].ts < cut) && (k == |h| - 1 || h[k].ts >= cut)
    decreases |h| - i
  {
    if i < |h| - 1 && h[i].ts < cut {
      FirstLiveIs(h, i + 1, cut);
    }
  }

  /** Brute-force reference of one window: every sample since the last clear, and the index
      `lo` of the oldest live one. */
  datatype Window = Window(isMin: bool, sz: real, hist: seq<Sample>, lo: nat) {

    ghost predicate Valid() {
      && Ordered(hist)
      && (if hist == [] then lo == 0 else lo < |hist|)
    }

    /** The clock handed to `Add` does not run backwards. */
    predicate MayAdd(ts: real) {
      hist == [] || hist[|hist| - 1].ts <= ts
    }

    /** Some sample since the last clear is at least as good as the sentinel. */
    ghost predicate Seeded() {
      exists i | 0 <= i < |hist| :: !Beats(isMin, Sentinel(isMin), hist[i].v)
    }

    ghost function Value(): real
      requires Valid()
    {
      if Seeded() then Best(isMin, hist, lo) else Sentinel(isMin)
    }

    ghost function Resize(s: real): Window {
      this.(sz := s)
    }

    ghost function Add(v: real, ts: real): (w: Window)
      requires Valid() && MayAdd(ts)
      ensures w.Valid()
    {
      var h := hist + [Sample(ts, v)];
      OrderedPush(hist, Sample(ts, v));
      Window(isMin, sz, h, FirstLive(h, lo, ts - sz))
    }
  }

  /** The deque `val` holds exactly the live samples that no later sample strictly beats, and
      `tail` is the value of the window. */
  ghost predicate Represents(w: Window, val: seq<Sample>, tail: real) {
    w.Valid() && tail == w.Value() && val == Kept(w.isMin, w.hist, w.lo)
  }

  function Fresh(isMin: bool): Window {
    Window(isMin, 10000.0, [], 0)
  }

  // ---------------------------------------------------------------- what the value means

  /** The cached value is the extremum of the live samples exactly when some sample since the last
      clear was at least as good as the sentinel. A min window fed doubles always is; a max window
      is not until it has seen a sample of at least DOUBLE_MIN. */
  lemma ValueIsExtremum(w: Window)
    requires w.Valid() && w.hist != []
    ensures w.Value() == Best(w.isMin, w.hist, w.lo) <==> w.Seeded()
    ensures w.Seeded() ==> forall i | w.lo <= i < |w.hist| :: !Beats(w.isMin, w.hist[i].v, w.Value())
    ensures w.Seeded() ==> exists i | w.lo <= i < |w.hist| :: w.hist[i].v == w.Value()
  {
    BestIs(w.isMin, w.hist, w.lo);
  }

  /** A max window that has only seen a zero reports a value no sample ever had. */
  lemma ZeroSampleMaxWindow(ts: real)
    ensures var w := Fresh(false).Add(0.0, ts);
      w.hist == [Sample(ts, 0.0)] && w.lo == 0 && w.Value() == DOUBLE_MIN > 0.0
  {
  }

  /** The newest sample never beats the value, whether or not the window is seeded. */
  lemma NewestSample(w: Window)
    requires w.Valid() && w.hist != []
    ensures !Beats(w.isMin, w.hist[|w.hist| - 1].v, w.Value())
  {
    BestIs(w.isMin, w.hist, w.lo);
  }

  /** Two windows over the same samples: the one that reaches further back is at least as good. */
  lemma WiderWindow(w: Window, u: Window)
    requires w.Valid() && u.Valid() && w.isMin == u.isMin && w.hist == u.hist && w.lo <= u.lo
    ensures !Beats(w.isMin, u.Value(), w.Value())
  {
    if w.hist != [] {
      BestIs(w.isMin, w.hist, w.lo);
      BestIs(w.isMin, w.hist, u.lo);
    }
  }

  lemma FirstLiveMonotone(h: seq<Sample>, i: nat, j: nat, c: real, d: real)
    requires i <= j < |h| && c <= d
    ensures FirstLive(h, i, c) <= FirstLive(h, j, d)
  {
    FirstLiveIs(h, i, c);
    FirstLiveIs(h, j, d);
  }

  // ---------------------------------------------------------------- whole runs

  datatype Op = Resize(s: real) | Feed(v: real, ts: real)

  /** A run a caller may make: sizes are not negative and the clock does not run backwards. */
  ghost predicate Legal(isMin: bool, ops: seq<Op>)
    decreases |ops|, 0
  {
    ops != [] ==>
      var n := |ops| - 1;
      Legal(isMin, ops[..n]) &&
      match ops[n]
      case Resize(s) => s >= 0.0
      case Feed(_, ts) => Run(isMin, ops[..n]).MayAdd(ts)
  }

  ghost function Run(isMin: bool, ops: seq<Op>): (w: Window)
    requires Legal(isMin, ops)
    ensures w.Valid() && w.isMin == isMin
    decreases |ops|, 1
  {
    if ops == [] then Fresh(isMin)
    else
      var n := |ops| - 1;
      match ops[n]
      case Resize(s) => Run(isMin, ops[..n]).Resize(s)
      case Feed(v, ts) => Run(isMin, ops[..n]).Add(v, ts)
  }

  /** The window length in force after `ops`. */
  ghost function Size(ops: seq<Op>): real {
    if ops == [] then 10000.0
    else if ops[|ops| - 1].Resize? then ops[|ops| - 1].s
    else Size(ops[..|ops| - 1])
  }

  /** Some sample so far was fed with a window, at its own length, that `t` falls out of. */
  ghost predicate Expired(ops: seq<Op>, t: real) {
    ops != [] &&
      var n := |ops| - 1;
      Expired(ops[..n], t) || (ops[n].Feed? && t < ops[n].ts - Size(ops[..n]))
  }

  /** One sample fed at a length that is not negative expires exactly the samples older than `cut`. */
  lemma FeedExpires(w: Window, v: real, ts: real, i: nat)
    requires w.Valid() && w.MayAdd(ts) && w.sz >= 0.0
    requires i <= |w.hist|
    ensures var w' := w.Add(v, ts);
      i >= w'.lo <==> i >= w.lo && w'.hist[i].ts >= ts - w.sz
  {
    var w' := w.Add(v, ts);
    FirstLiveIs(w'.hist, w.lo, ts - w.sz);
    if i >= w'.lo {
      OrderedAt(w'.hist, w'.lo, i);
    }
  }

  /** Live means: not older than the window of any sample fed so far. A window that has shrunk and
      grown again does not bring a sample back. */
  lemma {:induction false} LiveIsUnexpired(isMin: bool, ops: seq<Op>, i: nat)
    requires Legal(isMin, ops) && i < |Run(isMin, ops).hist|
    ensures i >= Run(isMin, ops).lo <==> !Expired(ops, Run(isMin, ops).hist[i].ts)
    decreases |ops|
  {
    hide FirstLive, Ordered, Window.Value;
    var n := |ops| - 1;
    var w := Run(isMin, ops[..n]);
    if ops[n].Feed? {
      SizeIs(isMin, ops[..n]);
      FeedExpires(w, ops[n].v, ops[n].ts, i);
      if i < |w.hist| {
        LiveIsUnexpired(isMin, ops[..n], i);
      } else {
        NewestUnexpired(isMin, ops[..n], ops[n].ts);
        assert Run(isMin, ops).hist[i] == Sample(ops[n].ts, ops[n].v);
      }
    } else {
      LiveIsUnexpired(isMin, ops[..n], i);
    }
  }

  lemma {:induction false} SizeIs(isMin: bool, ops: seq<Op>)
    requires Legal(isMin, ops)
    ensures Run(isMin, ops).sz == Size(ops) >= 0.0
  {
    if ops != [] {
      SizeIs(isMin, ops[..|ops| - 1]);
    }
  }

  lemma {:induction false} NewestUnexpired(isMin: bool, ops: seq<Op>, t: real)
    requires Legal(isMin, ops) && Run(isMin, ops).MayAdd(t)
    ensures !Expired(ops, t)
  {
    if ops != [] {
      var n := |ops| - 1;
      SizeIs(isMin, ops[..n]);
      NewestUnexpired(isMin, ops[..n], t);
    }
  }

  /** Over any run: once seeded, the value is the extremum of the samples that are not expired. */
  lemma ValueIsLiveExtremum(isMin: bool, ops: seq<Op>)
    requires Legal(isMin, ops) && Run(isMin, ops).Seeded()
    ensures var w := Run(isMin, ops);
      && (forall i | 0 <= i < |w.hist| && !Expired(ops, w.hist[i].ts) :: !Beats(isMin, w.hist[i].v, w.Value()))
      && (exists i | 0 <= i < |w.hist| && !Expired(ops, w.hist[i].ts) :: w.hist[i].v == w.Value())
  {
    var w := Run(isMin, ops);
    forall i | 0 <= i < |w.hist|
      ensures i >= w.lo <==> !Expired(ops, w.hist[i].ts)
    {
      LiveIsUnexpired(isMin, ops, i);
    }
    ValueIsExtremum(w);
  }

  // ---------------------------------------------------------------- the deque against the reference

  /** The elements of `q` that a sample of value `v` does not strictly beat. */
  ghost function Survivors(isMin: bool, q: seq<Sample>, v: real): seq<Sample> {
    if q == [] then []
    else (if Beats(isMin, v, q[0].v) then [] else [q[0]]) + Survivors(isMin, q[1..], v)
  }

  ghost predicate Monotone(isMin: bool, q: seq<Sample>) {
    forall i, j | 0 <= i < j < |q| :: !Beats(isMin, q[j].v, q[i].v)
  }

  lemma {:induction false} SurvivorsConcat(isMin: bool, p: seq<Sample>, q: seq<Sample>, v: real)
    ensures Survivors(isMin, p + q, v) == Survivors(isMin, p, v) + Survivors(isMin, q, v)
  {
    if p == [] {
      assert p + q == q;
    } else {
      assert (p + q)[1..] == p[1..] + q;
      SurvivorsConcat(isMin, p[1..], q, v);
    }
  }

  /** In a monotone deque the survivors are the elements up to the last unbeaten one. */
  lemma {:induction false} SurvivorsAre(isMin: bool, q: seq<Sample>, m: nat, v: real)
    requires Monotone(isMin, q)
    requires m <= |q| && (m > 0 ==> !Beats(isMin, v, q[m - 1].v))
    requires forall k | m <= k < |q| :: Beats(isMin, v, q[k].v)
    ensures Survivors(isMin, q, v) == q[..m]
  {
    if q != [] {
      assert m > 0 ==> m == 1 || !Beats(isMin, q[m - 1].v, q[0].v);
      SurvivorsAre(isMin, q[1..], if m == 0 then 0 else m - 1, v);
    }
  }

  lemma {:induction false} KeptMembers(isMin: bool, h: seq<Sample>, lo: nat)
    ensures forall s | s in Kept(isMin, h, lo) :: exists i | lo <= i < |h| :: h[i] == s
    ensures Monotone(isMin, Kept(isMin, h, lo))
    ensures lo < |h| ==> Kept(isMin, h, lo) != [] && Kept(isMin, h, lo)[0].v == Best(isMin, h, lo)
    decreases |h| - lo
  {
    if lo < |h| {
      KeptMembers(isMin, h, lo + 1);
      var rest := Kept(isMin, h, lo + 1);
      if lo + 1 < |h| {
        BestIs(isMin, h, lo + 1);
        assert Unbeaten(isMin, h, lo) <==> !Beats(isMin, Best(isMin, h, lo + 1), h[lo].v);
      }
      if Unbeaten(isMin, h, lo) {
        assert Kept(isMin, h, lo) == [h[lo]] + rest;
        forall j | 0 <= j < |rest| ensures !Beats(isMin, rest[j].v, h[lo].v) {
          assert rest[j] in rest;
        }
      } else {
        assert Kept(isMin, h, lo) == rest;
      }
    }
  }

  /** Every live sample that no later sample strictly beats is in the deque. */
  lemma {:induction false} KeptHolds(isMin: bool, h: seq<Sample>, lo: nat, i: nat)
    requires lo <= i < |h| && Unbeaten(isMin, h, i)
    ensures h[i] in Kept(isMin, h, lo)
    decreases |h| - lo
  {
    var rest := Kept(isMin, h, lo + 1);
    if lo < i {
      KeptHolds(isMin, h, lo + 1, i);
      assert Kept(isMin, h, lo) == [h[lo]] + rest || Kept(isMin, h, lo) == [] + rest;
    } else {
      assert Kept(isMin, h, lo) == [h[i]] + rest;
      assert ([h[i]] + rest)[0] == h[i];
    }
  }

  lemma UnbeatenPush(isMin: bool, h: seq<Sample>, s: Sample, i: nat)
    requires i < |h|
    ensures Unbeaten(isMin, h + [s], i) <==> Unbeaten(isMin, h, i) && !Beats(isMin, s.v, h[i].v)
  {
    var g := h + [s];
    assert g[|h|] == s;
    if Unbeaten(isMin, g, i) {
      forall j | i < j < |h| ensures !Beats(isMin, h[j].v, h[i].v) { assert g[j] == h[j]; }
    }
  }

  /** Pushing a sample keeps the old survivors and adds the new sample at the back. */
  lemma {:induction false} KeptPush(isMin: bool, h: seq<Sample>, s: Sample, lo: nat)
    requires lo <= |h|
    ensures Kept(isMin, h + [s], lo) == Survivors(isMin, Kept(isMin, h, lo), s.v) + [s]
    decreases |h| - lo
  {
    var g := h + [s];
    if lo == |h| {
      assert Kept(isMin, g, lo) == [s] + Kept(isMin, g, lo + 1);
    } else {
      KeptPush(isMin, h, s, lo + 1);
      UnbeatenPush(isMin, h, s, lo);
      if Unbeaten(isMin, h, lo) {
        SurvivorsConcat(isMin, [h[lo]], Kept(isMin, h, lo + 1), s.v);
      } else {
        assert Kept(isMin, h, lo) == Kept(isMin, h, lo + 1);
      }
    }
  }

  lemma {:induction false} FirstLiveShift(x: Sample, q: seq<Sample>, i: nat, cut: real)
    requires i < |q|
    ensures FirstLive([x] + q, i + 1, cut) == FirstLive(q, i, cut) + 1
    decreases |q| - i
  {
    assert ([x] + q)[i + 1] == q[i];
    if i != |q| - 1 && q[i].ts < cut {
      FirstLiveShift(x, q, i + 1, cut);
    }
  }

  lemma ExpireFirst(x: Sample, rest: seq<Sample>, cut: real)
    requires rest != [] && x.ts < cut
    ensures var q := [x] + rest; q[FirstLive(q, 0, cut)..] == rest[FirstLive(rest, 0, cut)..]
  {
    FirstLiveShift(x, rest, 0, cut);
  }

  lemma {:induction false} KeptHead(isMin: bool, h: seq<Sample>, lo: nat)
    requires Ordered(h) && lo < |h|
    ensures Kept(isMin, h, lo) != [] && Kept(isMin, h, lo)[0].ts >= h[lo].ts
    decreases |h| - lo
  {
    if lo < |h| - 1 && !Unbeaten(isMin, h, lo) {
      KeptHead(isMin, h, lo + 1);
      OrderedAt(h, lo, lo + 1);
    }
  }

  /** Expiring the deque from the front is the same as moving the live index forward. */
  lemma {:induction false} KeptExpire(isMin: bool, h: seq<Sample>, lo: nat, cut: real, q: seq<Sample>)
    requires Ordered(h) && lo < |h| && q == Kept(isMin, h, lo)
    ensures q != [] && q[FirstLive(q, 0, cut)..] == Kept(isMin, h, FirstLive(h, lo, cut))
    decreases |h| - lo
  {
    KeptHead(isMin, h, lo);
    if lo == |h| - 1 {
      assert q == [h[lo]] + Kept(isMin, h, lo + 1);
    } else if h[lo].ts < cut {
      var rest := Kept(isMin, h, lo + 1);
      KeptExpire(isMin, h, lo + 1, cut, rest);
      if Unbeaten(isMin, h, lo) {
        ExpireFirst(h[lo], rest, cut);
      } else {
        assert q == rest;
      }
    }
  }

  /** One sample moves the value of a window by a single comparison. */
  lemma PushedValue(w: Window, s: Sample)
    requires w.Valid() && w.MayAdd(s.ts)
    ensures var w' := w.(hist := w.hist + [s]);
      w'.Valid() && w'.Value() == if Beats(w.isMin, s.v, w.Value()) then s.v else w.Value()
  {
    var w' := w.(hist := w.hist + [s]);
    var h, n := w'.hist, |w.hist|;
    OrderedPush(w.hist, s);
    BestIs(w.isMin, h, w.lo);
    assert forall i | 0 <= i < n :: h[i] == w.hist[i];
    assert h[n] == s;
    if w.Seeded() {
      var i :| 0 <= i < n && !Beats(w.isMin, Sentinel(w.isMin), w.hist[i].v);
      assert !Beats(w.isMin, Sentinel(w.isMin), h[i].v);
      assert w'.Seeded();
      BestIs(w.isMin, w.hist, w.lo);
      var b := Best(w.isMin, w.hist, w.lo);
      var k :| w.lo <= k < n && w.hist[k].v == b;
      assert h[k].v == b;
    } else {
      forall i | 0 <= i < n ensures Beats(w.isMin, Sentinel(w.isMin), h[i].v) {
        assert h[i] == w.hist[i];
      }
    }
  }

  /** One of the first `n` elements of `q` is at least as good as `tail`. */
  ghost predicate AnyMatches(isMin: bool, q: seq<Sample>, n: nat, tail: real)
    requires n <= |q|
  {
    exists k | 0 <= k < n :: !Beats(isMin, tail, q[k].v)
  }

  /** The cached extremum after the expiry loop is the value of the shortened window. */
  lemma ExpiredValue(w: Window, lo: nat, q: seq<Sample>, n: nat)
    requires w.Valid() && w.lo <= lo < |w.hist|
    requires q == Kept(w.isMin, w.hist, w.lo)
    requires n < |q| && q[n..] == Kept(w.isMin, w.hist, lo)
    ensures w.(lo := lo).Value() == if AnyMatches(w.isMin, q, n, w.Value()) then q[n].v else w.Value()
  {
    hide Kept, Best, Ordered, Monotone;
    KeptMembers(w.isMin, w.hist, w.lo);
    KeptMembers(w.isMin, w.hist, lo);
    assert q[n..][0] == q[n];
    assert w.(lo := lo).Seeded() == w.Seeded();
    if w.Seeded() {
      assert w.Value() == q[0].v;
      assert n > 0 ==> !Beats(w.isMin, w.Value(), q[0].v);
    } else {
      forall k | 0 <= k < |q| ensures Beats(w.isMin, w.Value(), q[k].v) {
        assert q[k] in q;
      }
    }
  }

  /** The popping loop and the push: the first `m` elements of the deque `q` survive. */
  lemma PushStep(w: Window, s: Sample, q: seq<Sample>, m: nat, tail: real)
    requires Represents(w, q, tail) && w.MayAdd(s.ts)
    requires m <= |q| && (m > 0 ==> !Beats(w.isMin, s.v, q[m - 1].v))
    requires forall k | m <= k < |q| :: Beats(w.isMin, s.v, q[k].v)
    ensures Represents(w.(hist := w.hist + [s]), q[..m] + [s], if Beats(w.isMin, s.v, tail) then s.v else tail)
  {
    KeptMembers(w.isMin, w.hist, w.lo);
    SurvivorsAre(w.isMin, q, m, s.v);
    KeptPush(w.isMin, w.hist, s, w.lo);
    PushedValue(w, s);
  }

  /** The expiry loop: `n` elements are popped from the front. */
  lemma ExpiryStep(w: Window, q: seq<Sample>, tail: real, cut: real, n: nat)
    requires Represents(w, q, tail) && w.hist != []
    requires q != [] && n == FirstLive(q, 0, cut)
    ensures var w' := w.(lo := FirstLive(w.hist, w.lo, cut));
      Represents(w', q[n..], if AnyMatches(w.isMin, q, n, tail) then q[n].v else tail)
  {
    KeptExpire(w.isMin, w.hist, w.lo, cut, q);
    ExpiredValue(w, FirstLive(w.hist, w.lo, cut), q, n);
  }

  // ---------------------------------------------------------------- the deque over whole runs

  /** The samples of `h[i..]` that have not expired and that no later sample strictly beats, oldest
      first. */
  ghost function LiveUnbeaten(isMin: bool, ops: seq<Op>, h: seq<Sample>, i: nat): seq<Sample>
    decreases |h| - i
  {
    if i >= |h| then []
    else
      (if Unbeaten(isMin, h, i) && !Expired(ops, h[i].ts) then [h[i]] else []) + LiveUnbeaten(isMin, ops, h, i + 1)
  }

  lemma {:induction false} KeptIsLiveUnbeaten(isMin: bool, ops: seq<Op>, h: seq<Sample>, lo: nat, i: nat)
    requires forall k | 0 <= k < |h| :: k >= lo <==> !Expired(ops, h[k].ts)
    ensures LiveUnbeaten(isMin, ops, h, i) == Kept(isMin, h, if i < lo then lo else i)
    decreases |h| - i
  {
    hide Unbeaten, Expired;
    if i < |h| {
      KeptIsLiveUnbeaten(isMin, ops, h, lo, i + 1);
    }
  }

  /** Over any run, whatever the lengths: a deque that represents the window holds exactly the samples
      that have not expired and that no later sample strictly beats, in order, and once seeded its cached
      extremum is that of the samples that have not expired. */
  lemma DequeIsLiveUnbeaten(isMin: bool, ops: seq<Op>, val: seq<Sample>, tail: real)
    requires Legal(isMin, ops) && Represents(Run(isMin, ops), val, tail)
    ensures var w := Run(isMin, ops);
      && val == LiveUnbeaten(isMin, ops, w.hist, 0)
      && (w.Seeded() ==>
          && (forall i | 0 <= i < |w.hist| && !Expired(ops, w.hist[i].ts) :: !Beats(isMin, w.hist[i].v, tail))
          && (exists i | 0 <= i < |w.hist| && !Expired(ops, w.hist[i].ts) :: w.hist[i].v == tail))
  {
    hide Kept, LiveUnbeaten, Expired;
    var w := Run(isMin, ops);
    forall k | 0 <= k < |w.hist|
      ensures k >= w.lo <==> !Expired(ops, w.hist[k].ts)
    {
      LiveIsUnexpired(isMin, ops, k);
    }
    KeptIsLiveUnbeaten(isMin, ops, w.hist, w.lo, 0);
    if w.Seeded() {
      ValueIsLiveExtremum(isMin, ops);
    }
  }

  class Win {
    const isMin: bool
    var sz: real
    var val: seq<Sample>
    var tail: real
    ghost var model: Window

    ghost predicate Valid()
      reads this
    {
      model.Valid() && model.isMin == isMin && model.sz == sz && tail == model.Value() && Represents(model, val, tail)
    }

    constructor (isMin: bool)
      ensures Valid() && model == Fresh(isMin) && this.isMin == isMin
    {
      this.isMin := isMin;
      sz, val := 10000.0, [];
      tail := Sentinel(isMin);
      model := Fresh(isMin);
    }

    method Clear()
      modifies this
      ensures Valid() && model == Fresh(isMin)
    {
      sz, val := 10000.0, [];
      tail := Sentinel(isMin);
      model := Fresh(isMin);
    }

    method UpdateSz(s: real)
      requires Valid()
      modifies this
      ensures Valid() && model == old(model).Resize(s)
    {
      sz := s;
      model := model.Resize(s);
    }

    method Add(v: real, ts: real)
      requires Valid() && model.MayAdd(ts)
      modifies this
      ensures Valid() && model == old(model).Add(v, ts)
    {
      hide Kept, Window.Value, FirstLive, Ordered, AnyMatches;
      ghost var w, q := model, val;
      while val != [] && Beats(isMin, v, val[|val| - 1].v)
        invariant |val| <= |q| && val == q[..|val|]
        invariant forall k | |val| <= k < |q| :: Beats(isMin, v, q[k].v)
        invariant tail == old(tail) && sz == old(sz) && model == w
      {
        val := val[..|val| - 1];
      }
      PushStep(w, Sample(ts, v), q, |val|, tail);
      val := val + [Sample(ts, v)];
      if (isMin && v < tail) || (!isMin && v > tail) {
        tail := v;
      }
      model := w.(hist := w.hist + [Sample(ts, v)]);
      ExpiryStep(model, val, tail, ts - sz, FirstLive(val, 0, ts - sz));
      UpdateWin(ts);
      model := w.Add(v, ts);
    }

    method UpdateWin(now: real)
      requires val != []
      modifies `val, `tail
      ensures var q, n := old(val), FirstLive(old(val), 0, now - sz);
        && val == q[n..]
        && tail == if AnyMatches(isMin, q, n, old(tail)) then q[n].v else old(tail)
    {
      ghost var q, n := val, 0;
      var again := false;
      while |val| > 1 && val[0].ts < now - sz
        invariant 0 <= n < |q| && val == q[n..]
        invariant FirstLive(q, 0, now - sz) == FirstLive(q, n, now - sz)
        invariant tail == old(tail)
        invariant again <==> AnyMatches(isMin, q, n, tail)
      {
        if (isMin && val[0].v <= tail) || (!isMin && val[0].v >= tail) {
          again := true;
        }
        assert val[0] == q[n];
        val, n := val[1..], n + 1;
      }
      if again {
        tail := val[0].v;
      }
    }
  }
}
