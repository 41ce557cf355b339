/** `rtt_win` (vns/vns_utils.cc:82-123): one stream of round-trip times fed to four windows that
    resize by different rules. */
module RttWindows {
  import opened Doubles
  import opened SlidingWindow

  datatype RttModel = RttModel(srtt: real, curr: real, minRtt: Window, virgin: Window,
                               eyenetMin: Window, eyenetMax: Window)
  {
    ghost predicate Valid() {
      && minRtt.Valid() && virgin.Valid() && eyenetMin.Valid() && eyenetMax.Valid()
      && minRtt.isMin && virgin.isMin && eyenetMin.isMin && !eyenetMax.isMin
      && minRtt.hist == virgin.hist == eyenetMin.hist == eyenetMax.hist
    }

    function Cleared(): RttModel {
      RttModel(0.0, curr, Fresh(true), Fresh(true), Fresh(true), Fresh(false))
    }

    ghost predicate MayAdd(ts: real) {
      minRtt.MayAdd(ts)
    }

    ghost function Add(v: real, ts: real): (m: RttModel)
      requires Valid() && MayAdd(ts)
      ensures m.Valid()
    {
      var s := 1.0 / 16.0 * v + (1.0 - 1.0 / 16.0) * (if srtt == 0.0 then v else srtt);
      var sz := Max(10000.0, 20.0 * minRtt.Value());
      RttModel(s, v,
        minRtt.Resize(sz).Add(v, ts),
        virgin.Resize(Min(sz, 0.5 * s)).Add(v, ts),
        eyenetMin.Resize(Min(sz, 4.0 * s)).Add(v, ts),
        eyenetMax.Resize(Min(sz, 4.0 * s)).Add(v, ts))
    }

    /** The smallest recent RTT is within a tenth of the observed range of the overall minimum. */
    ghost predicate InMode()
      requires Valid()
    {
      eyenetMin.Value() < minRtt.Value() + 0.1 * (eyenetMax.Value() - minRtt.Value())
    }

    /** The estimates are ordered: the wider a min window, the smaller its value. */
    ghost predicate InOrder()
      requires Valid()
    {
      minRtt.Value() <= eyenetMin.Value() <= virgin.Value() <= curr <= eyenetMax.Value()
    }

    /** What every run of round-trip times that are not negative keeps. */
    ghost predicate Nested() {
      && Valid() && srtt >= 0.0
      && minRtt.lo <= eyenetMin.lo == eyenetMax.lo <= virgin.lo
      && (forall i | 0 <= i < |minRtt.hist| :: minRtt.hist[i].v >= 0.0)
      && (minRtt.hist != [] ==> minRtt.hist[|minRtt.hist| - 1].v == curr)
    }
  }

  function FreshRtt(): RttModel {
    RttModel(0.0, 0.0, Fresh(true), Fresh(true), Fresh(true), Fresh(false))
  }

  /** The four windows resize differently, but a sample that is not negative keeps them nested. */
  lemma AddKeepsNested(m: RttModel, v: real, ts: real)
    requires m.Nested() && m.MayAdd(ts) && v >= 0.0
    ensures m.Add(v, ts).Nested()
  {
    hide SlidingWindow.FirstLive, SlidingWindow.Ordered, SlidingWindow.Window.Value;
    var m' := m.Add(v, ts);
    var h := m'.minRtt.hist;
    forall i | 0 <= i < |h| ensures h[i].v >= 0.0 {
      assert i < |h| - 1 ==> h[i] == m.minRtt.hist[i];
    }
    FirstLiveMonotone(h, m.minRtt.lo, m.eyenetMin.lo, ts - m'.minRtt.sz, ts - m'.eyenetMin.sz);
    FirstLiveMonotone(h, m.eyenetMin.lo, m.virgin.lo, ts - m'.eyenetMin.sz, ts - m'.virgin.sz);
  }

  /** After a sample at `ts`, a window of this length holds what it held and is young enough, and the newest
      sample in any case. */
  ghost predicate Reaches(w: Window, w': Window, ts: real, sz: real) {
    forall i | 0 <= i < |w'.hist| ::
      w'.lo <= i <==> w.lo <= i && (w'.hist[i].ts >= ts - sz || i == |w'.hist| - 1)
  }

  lemma AddReaches(w: Window, v: real, ts: real)
    requires w.Valid() && w.MayAdd(ts)
    ensures w.Add(v, ts).hist == w.hist + [Sample(ts, v)] && Reaches(w, w.Add(v, ts), ts, w.sz)
  {
    hide SlidingWindow.FirstLive, SlidingWindow.Ordered;
    var w' := w.Add(v, ts);
    FirstLiveIs(w'.hist, w.lo, ts - w.sz);
    forall i | 0 <= i < |w'.hist|
      ensures w'.lo <= i <==> w.lo <= i && (w'.hist[i].ts >= ts - w.sz || i == |w'.hist| - 1)
    {
      if w'.lo <= i {
        OrderedAt(w'.hist, w'.lo, i);
      }
    }
  }

  /** How far back each estimate looks: ten seconds or twenty minimal RTTs for the minimum, and within that
      half a smoothed RTT for the virgin RTT and four for the extremes of the mode test. */
  lemma EstimatesReach(m: RttModel, v: real, ts: real)
    requires m.Valid() && m.MayAdd(ts)
    ensures var m', far := m.Add(v, ts), Max(10000.0, 20.0 * m.minRtt.Value());
      && m'.curr == v && 16.0 * m'.srtt == (if m.srtt == 0.0 then 16.0 * v else 15.0 * m.srtt + v)
      && Reaches(m.minRtt, m'.minRtt, ts, far)
      && Reaches(m.virgin, m'.virgin, ts, Min(far, m'.srtt / 2.0))
      && Reaches(m.eyenetMin, m'.eyenetMin, ts, Min(far, 4.0 * m'.srtt))
      && Reaches(m.eyenetMax, m'.eyenetMax, ts, Min(far, 4.0 * m'.srtt))
  {
    hide Reaches, Window.Value, Window.Add;
    var m', far := m.Add(v, ts), Max(10000.0, 20.0 * m.minRtt.Value());
    ResizedReaches(m.minRtt, far, v, ts);
    ResizedReaches(m.virgin, Min(far, 0.5 * m'.srtt), v, ts);
    ResizedReaches(m.eyenetMin, Min(far, 4.0 * m'.srtt), v, ts);
    ResizedReaches(m.eyenetMax, Min(far, 4.0 * m'.srtt), v, ts);
  }

  lemma ResizedReaches(w: Window, sz: real, v: real, ts: real)
    requires w.Valid() && w.MayAdd(ts)
    ensures w.Resize(sz).Valid() && w.Resize(sz).MayAdd(ts) && Reaches(w, w.Resize(sz).Add(v, ts), ts, sz)
  {
    AddReaches(w.Resize(sz), v, ts);
  }

  /** The mode test holds while the smallest recent RTT is in the lowest tenth of the range from the minimum
      to the largest recent one; with constant RTTs it never does. */
  lemma InModeIff(m: RttModel)
    requires m.Valid()
    ensures m.InMode() <==>
      10.0 * (m.eyenetMin.Value() - m.minRtt.Value()) < m.eyenetMax.Value() - m.minRtt.Value()
    ensures m.eyenetMax.Value() == m.minRtt.Value() <= m.eyenetMin.Value() ==> !m.InMode()
  {
    hide Window.Value;
  }

  lemma NestedIsInOrder(m: RttModel)
    requires m.Nested() && m.minRtt.hist != []
    ensures m.InOrder()
  {
    WiderWindow(m.minRtt, m.eyenetMin);
    WiderWindow(m.eyenetMin, m.virgin);
    NewestSample(m.virgin);
    NewestSample(m.eyenetMax);
  }

  /** No estimate is negative. */
  lemma EstimatesNotNegative(m: RttModel)
    requires m.Nested()
    ensures m.minRtt.Value() >= 0.0 && m.virgin.Value() >= 0.0
  {
    if m.minRtt.hist != [] {
      BestIs(true, m.minRtt.hist, m.minRtt.lo);
      BestIs(true, m.virgin.hist, m.virgin.lo);
    }
  }

  /** A stream of round-trip times no caller can fault: none negative, time not running backwards. */
  ghost predicate LegalStream(rtts: seq<Sample>) {
    Ordered(rtts) && forall i | 0 <= i < |rtts| :: rtts[i].v >= 0.0
  }

  ghost function Stream(rtts: seq<Sample>): (m: RttModel)
    requires Ordered(rtts)
    ensures m.Valid() && m.minRtt.hist == rtts
  {
    if rtts == [] then FreshRtt()
    else
      var n := |rtts| - 1;
      assert rtts == rtts[..n] + [Sample(rtts[n].ts, rtts[n].v)];
      var m := Stream(rtts[..n]);
      assert m.MayAdd(rtts[n].ts);
      m.Add(rtts[n].v, rtts[n].ts)
  }

  /** After every sample of every run, min_rtt <= eyenet_min <= virgin_rtt <= curr_rtt <= eyenet_max. */
  lemma {:induction false} StreamInOrder(rtts: seq<Sample>)
    requires LegalStream(rtts)
    ensures Stream(rtts).Nested()
    ensures rtts != [] ==> Stream(rtts).InOrder()
  {
    hide SlidingWindow.FirstLive, SlidingWindow.Window.Value, SlidingWindow.Window.Add;
    if rtts != [] {
      var n := |rtts| - 1;
      StreamInOrder(rtts[..n]);
      AddKeepsNested(Stream(rtts[..n]), rtts[n].v, rtts[n].ts);
      NestedIsInOrder(Stream(rtts));
    }
  }

  class RttWin {
    var srtt: real
    const a: real := 1.0 / 16.0
    const eyenetMin: Win
    const eyenetMax: Win
    var currRtt: real
    const minRtt: Win
    const virginRtt: Win
    ghost var model: RttModel

    ghost function Repr(): set<object> {
      {this, eyenetMin, eyenetMax, minRtt, virginRtt}
    }

    ghost predicate Valid()
      reads Repr()
      ensures Valid() ==>
        && model.Valid() && currRtt == model.curr
        && virginRtt.tail == model.virgin.Value() && minRtt.tail == model.minRtt.Value()
    {
      && eyenetMin.Valid() && eyenetMax.Valid() && minRtt.Valid() && virginRtt.Valid()
      && eyenetMin != eyenetMax && eyenetMin != minRtt && eyenetMin != virginRtt
      && eyenetMax != minRtt && eyenetMax != virginRtt && minRtt != virginRtt
      && model == RttModel(srtt, currRtt, minRtt.model, virginRtt.model, eyenetMin.model, eyenetMax.model)
      && model.Valid()
    }

    constructor ()
      ensures Valid() && fresh(Repr()) && model == FreshRtt()
    {
      srtt, currRtt := 0.0, 0.0;
      eyenetMin := new Win(true);
      eyenetMax := new Win(false);
      minRtt := new Win(true);
      virginRtt := new Win(true);
      model := FreshRtt();
    }

    method Clear()
      requires Valid()
      modifies Repr()
      ensures Valid() && model == old(model).Cleared()
    {
      srtt := 0.0;
      minRtt.Clear();
      virginRtt.Clear();
      eyenetMin.Clear();
      eyenetMax.Clear();
      model := model.Cleared();
    }

    method Add(v: real, ts: real)
      requires Valid() && model.MayAdd(ts)
      modifies Repr()
      ensures Valid() && model == old(model).Add(v, ts)
    {
      hide SlidingWindow.Represents, SlidingWindow.Window.Value, SlidingWindow.Window.Valid, SlidingWindow.Window.Add;
      ghost var m' := model.Add(v, ts);
      if srtt == 0.0 {
        srtt := v;
      }
      srtt := a * v + (1.0 - a) * srtt;
      currRtt := v;
      var sz := Max(10000.0, 20.0 * minRtt.tail);
      minRtt.UpdateSz(sz);
      virginRtt.UpdateSz(Min(sz, 0.5 * srtt));
      eyenetMin.UpdateSz(Min(sz, 4.0 * srtt));
      eyenetMax.UpdateSz(Min(sz, 4.0 * srtt));
      minRtt.Add(v, ts);
      virginRtt.Add(v, ts);
      eyenetMin.Add(v, ts);
      eyenetMax.Add(v, ts);
      assert srtt == m'.srtt;
      assert currRtt == m'.curr;
      assert minRtt.model == m'.minRtt;
      assert virginRtt.model == m'.virgin;
      assert eyenetMin.model == m'.eyenetMin;
      assert eyenetMax.model == m'.eyenetMax;
      model := m';
    }

    method ModeEyenet() returns (inMode: bool)
      requires Valid()
      ensures inMode == model.InMode()
    {
      var thres := minRtt.tail + 0.1 * (eyenetMax.tail - minRtt.tail);
      inMode := eyenetMin.tail < thres;
    }
  }
}
