/** Runs of the controller that show what can happen: a window that is cut, and one that converges. */
module ControllerExamples {
  import opened Doubles
  import opened PacketBooks
  import opened Steering
  import opened DeltaControl
  import opened LossReduction
  import opened RttWindows
  import SlidingWindow
  import opened Controller
  import opened ControllerRuns
  import opened ControllerTheorems

  lemma StartIs(ts: real)
    requires ts >= 0.0
    ensures var c := Started(CONSTANT, false, 1.0, ts);
      && Inv(c) && c.currTs == ts && c.rtt == FreshRtt() && c.books == EMPTY_BOOKS && c.loss == FRESH_LOSS
      && c.nack == 0 && c.dm.utility == CONSTANT && !c.steer.doSs
  {
    hide Inv, Ctl.Core, SlidingWindow.Fresh;
  }

  // ---------------------------------------------------------------- cuts

  /** The `n` ids from `lo` on. */
  function Ids(lo: int, n: nat): (ids: set<int>)
    ensures |ids| == n && forall k :: k in ids <==> lo <= k < lo + n
  {
    if n == 0 then {} else Ids(lo, n - 1) + {lo + n - 1}
  }

  function Sends(lo: int, n: nat): seq<Event> {
    seq(n, i => Send(lo + i))
  }

  /** In flight are the `n` ids from `lo` on, and no later one has been issued. */
  ghost predicate Newest(b: Books, lo: nat, n: nat) {
    (forall k :: k in b.unacked <==> lo <= k < lo + n) && forall k | k in b.Issued() :: k < lo + n
  }

  ghost predicate Flying(c: Ctl, lo: nat, n: nat, ts: real, loss: LossModel) {
    Inv(c) && c.currTs == ts && c.loss == loss && Newest(c.books, lo, n)
  }

  /** The run leads to such a state. */
  ghost predicate Reached(c: Ctl, es: seq<Event>, lo: nat, n: nat, ts: real, loss: LossModel)
    requires Inv(c)
  {
    LegalRun(c, es) && Flying(After(c, es), lo, n, ts, loss)
  }

  lemma StartFlies()
    ensures Reached(Started(CONSTANT, false, 1.0, 10.0), [], 0, 0, 10.0, FRESH_LOSS)
  {
    hide Inv, Started;
    StartIs(10.0);
    NoEvents(Started(CONSTANT, false, 1.0, 10.0));
  }

  lemma ThenTick(c: Ctl, es: seq<Event>, lo: nat, n: nat, ts: real, loss: LossModel, later: real)
    requires Inv(c) && Reached(c, es, lo, n, ts, loss) && ts <= later
    ensures Reached(c, es + [Tick(later)], lo, n, later, loss)
  {
    hide Inv, LegalRun, After;
    OneMore(c, es, Tick(later));
    TickKeeps(After(c, es), later);
  }

  lemma SentIsNewest(b: Books, lo: nat, n: nat, p: Packet)
    requires Newest(b, lo, n)
    ensures b.Unissued(lo + n) && Newest(b.Sent(lo + n, p), lo, n + 1)
  {
    var b' := b.Sent(lo + n, p);
    assert forall k | k in b'.Issued() :: k == lo + n || k in b.Issued();
    assert forall k :: k in b'.unacked <==> k == lo + n || k in b.unacked;
  }

  lemma SendFlies(c: Ctl, lo: nat, n: nat, ts: real, loss: LossModel)
    requires Flying(c, lo, n, ts, loss)
    ensures Legal(c, Send(lo + n)) && c.Core() && Flying(Apply(c, Send(lo + n)), lo, n + 1, ts, loss)
  {
    hide Inv, Ctl.Core, Newest, Books.Unissued, Books.Sent;
    CoreOf(c);
    CoreIs(c);
    SentIsNewest(c.books, lo, n, Packet(c.currIntersend, c.rtt.virgin.Value(), c.currTs));
    ApplyKeeps(c, Send(lo + n));
  }

  lemma {:induction false} ThenSends(c: Ctl, es: seq<Event>, lo: nat, n: nat, ts: real, loss: LossModel)
    requires Inv(c) && Reached(c, es, lo, 0, ts, loss)
    ensures Reached(c, es + Sends(lo, n), lo, n, ts, loss)
  {
    hide Inv, Flying, Legal, Apply, Ctl.Core, LegalRun, After;
    if n == 0 {
      assert es + Sends(lo, n) == es;
    } else {
      ThenSends(c, es, lo, n - 1, ts, loss);
      var before := es + Sends(lo, n - 1);
      SendFlies(After(c, before), lo, n - 1, ts, loss);
      OneMore(c, before, Send(lo + n - 1));
      assert es + Sends(lo, n) == before + [Send(lo + n - 1)];
    }
  }

  lemma BooksOf(c: Ctl)
    requires Inv(c)
    ensures c.books.Balanced()
  {
  }

  lemma LastSettlesAll(b: Books, lo: nat, n: nat)
    requires b.Balanced() && Newest(b, lo, n) && n >= 1
    ensures Newest(b.Acknowledged(lo + n - 1), lo + n, 0) && |b.LostBy(lo + n - 1)| == n - 1
  {
    hide Books.Balanced, Books.Acknowledged, Books.Issued;
    DistinctOf(b);
    AcknowledgedClassifies(b, lo + n - 1);
    SettledUpTo(b, lo + n - 1);
    assert b.LostBy(lo + n - 1) == Ids(lo, n - 1);
  }

  lemma DistinctOf(b: Books)
    requires b.Balanced()
    ensures b.Distinct()
  {
  }

  lemma SettledUpTo(b: Books, last: int)
    requires last in b.unacked
    ensures forall k :: k in b.Acknowledged(last).unacked <==> k in b.unacked && k > last
  {
  }

  /** The last packet in flight is acknowledged, and those before it are given up. */
  lemma AckLands(c: Ctl, lo: nat, n: nat, ts: real, loss: LossModel, sendTs: real)
    requires Flying(c, lo, n, ts, loss) && n >= 1 && sendTs <= ts
    ensures var e, after := Ack(lo + n, sendTs), loss.Acked(n - 1, ts, ts - sendTs);
      && Legal(c, e) && c.Core() && c.Clocked() && Flying(Apply(c, e), lo + n, 0, ts, after)
      && (Cuts(c, e) <==> loss.LossesCut(n - 1, ts, ts - sendTs))
  {
    hide Inv, Ctl.OnAck, LossModel.LossesCut, LossModel.Acked, Ctl.Core, Books.Issued, Books.Balanced,
         Books.Acknowledged, Newest, Ctl.Clocked, Books.LostBy;
    CoreOf(c);
    BooksOf(c);
    LastSettlesAll(c.books, lo, n);
    ApplyKeeps(c, Ack(lo + n, sendTs));
    AckBooks(c, lo + n, sendTs);
  }

  lemma ThenAck(c: Ctl, es: seq<Event>, lo: nat, n: nat, ts: real, loss: LossModel, sendTs: real)
    requires Inv(c) && Reached(c, es, lo, n, ts, loss) && n >= 1 && sendTs <= ts
    ensures Reached(c, es + [Ack(lo + n, sendTs)], lo + n, 0, ts, loss.Acked(n - 1, ts, ts - sendTs))
    ensures loss.LossesCut(n - 1, ts, ts - sendTs) ==>
      Legal(After(c, es), Ack(lo + n, sendTs)) && Cuts(After(c, es), Ack(lo + n, sendTs))
  {
    hide Inv, Flying, Legal, Cuts, Apply, LegalRun, After, LossModel.LossesCut, LossModel.Acked, Ctl.Core;
    AckLands(After(c, es), lo, n, ts, loss, sendTs);
    OneMore(c, es, Ack(lo + n, sendTs));
  }

  /** An acknowledgement of nothing in flight counts one delivered packet. */
  lemma ThenEcho(c: Ctl, es: seq<Event>, lo: nat, ts: real, loss: LossModel, sendTs: real)
    requires Inv(c) && Reached(c, es, lo, 0, ts, loss) && sendTs <= ts
    ensures Reached(c, es + [Ack(0, sendTs)], lo, 0, ts, loss.Update(false, ts, ts - sendTs))
  {
    hide Inv, LegalRun, After, Ctl.OnAck, Ctl.Core;
    var m := After(c, es);
    CoreOf(m);
    ApplyKeeps(m, Ack(0, sendTs));
    assert -1 !in m.books.unacked;
    NothingMatched(m.books, -1);
    AckBooks(m, 0, sendTs);
    OneMore(c, es, Ack(0, sendTs));
  }

  function AcksFrom(n: nat, sendTs: real): seq<Event> {
    seq(n, _ => Ack(0, sendTs))
  }

  lemma AcksFromStep(n: nat, sendTs: real)
    ensures AcksFrom(0, sendTs) == [] && AcksFrom(n + 1, sendTs) == AcksFrom(n, sendTs) + [Ack(0, sendTs)]
  {
  }

  function Delivered(n: nat): seq<bool> {
    seq(n, _ => false)
  }

  /** While the loss window lasts, delivered packets are counted. */
  lemma {:induction false} ThenEchoes(c: Ctl, es: seq<Event>, lo: nat, k: nat, n: nat)
    requires Inv(c) && Reached(c, es, lo, 0, 11.0, LossModel(Delivered(k), 11.0))
    ensures Reached(c, es + AcksFrom(n, 10.0), lo, 0, 11.0, LossModel(Delivered(k + n), 11.0))
  {
    hide Inv, Reached, AcksFrom;
    AcksFromStep(0, 10.0);
    if n == 0 {
      assert es + AcksFrom(n, 10.0) == es;
    } else {
      ThenEchoes(c, es, lo, k, n - 1);
      ThenEcho(c, es + AcksFrom(n - 1, 10.0), lo, 11.0, LossModel(Delivered(k + n - 1), 11.0), 10.0);
      assert Delivered(k + n) == Delivered(k + n - 1) + [false];
      AcksFromStep(n - 1, 10.0);
      assert es + AcksFrom(n, 10.0) == es + AcksFrom(n - 1, 10.0) + [Ack(0, 10.0)];
    }
  }

  /** What 22 packets, of which the last is acknowledged, do to an expired window with nothing counted. */
  lemma BurstCuts(lastWin: real, ts: real)
    requires ts > lastWin + 2.0
    ensures var m := LossModel([], lastWin); m.LossesCut(21, ts, 1.0) && m.Acked(21, ts, 1.0) == LossModel([false], ts)
  {
    LossesAre(LossModel([], lastWin), 21, ts, 1.0);
    assert LossModel([], lastWin).Losses(21, ts, 1.0).flags == [];
  }

  /** 22 packets go out at once, and a second later the last of them is acknowledged and the 21 before it
      are given up. */
  function FirstBurst(): seq<Event> {
    Sends(0, 22) + [Tick(11.0)]
  }

  lemma FirstCut()
    ensures var c, es, e := Started(CONSTANT, false, 1.0, 10.0), FirstBurst(), Ack(22, 10.0);
      && LegalRun(c, es) && Legal(After(c, es), e) && Cuts(After(c, es), e)
      && Reached(c, es + [e], 22, 0, 11.0, LossModel(Delivered(1), 11.0))
  {
    hide Inv, Started, Flying, Legal, Cuts, LossModel.LossesCut, LossModel.Acked, Sends, LegalRun, After;
    var c := Started(CONSTANT, false, 1.0, 10.0);
    StartFlies();
    ThenSends(c, [], 0, 22, 10.0, FRESH_LOSS);
    assert [] + Sends(0, 22) == Sends(0, 22);
    ThenTick(c, Sends(0, 22), 0, 22, 10.0, FRESH_LOSS, 11.0);
    BurstCuts(0.0, 11.0);
    ThenAck(c, FirstBurst(), 0, 22, 11.0, FRESH_LOSS, 10.0);
    assert Delivered(1) == [false];
  }

  ghost predicate OnlyQuiet(es: seq<Event>) {
    forall e | e in es :: e.Tick? || e.Send?
  }

  lemma {:induction false} QuietRunKeeps(c: Ctl, es: seq<Event>)
    requires Inv(c) && LegalRun(c, es) && OnlyQuiet(es)
    ensures After(c, es).steer == c.steer && After(c, es).nack == c.nack
  {
    hide Inv, Apply;
    if es == [] {
      NoEvents(c);
    } else {
      var n := |es| - 1;
      assert es[n] in es;
      QuietRunKeeps(c, es[..n]);
      QuietKeepsWindow(After(c, es[..n]), es[n]);
    }
  }

  lemma StartsAtTen()
    ensures var c := Started(CONSTANT, false, 1.0, 10.0); c.steer.cwnd == 10.0 && c.nack == 0
  {
    hide Inv, Ctl.Core;
  }

  /** The event cuts, and takes the window from `before` packets to `after`. */
  ghost predicate CutsTo(c: Ctl, es: seq<Event>, e: Event, before: real, after: real)
    requires Inv(c)
  {
    && LegalRun(c, es) && Legal(After(c, es), e) && Cuts(After(c, es), e)
    && After(c, es).steer.cwnd == before && After(c, es + [e]).steer.cwnd == after
  }

  /** A cut does happen: it takes the initial window of ten packets to eight. */
  lemma CutIsReachable()
    ensures exists es, e :: CutsTo(Started(CONSTANT, false, 1.0, 10.0), es, e, 10.0, 8.0)
  {
    hide Inv, Started, Legal, Cuts, LegalRun, After, Reached, Ctl.OnAck, Ctl.Sampled, Ctl.Steered, Ctl.Core;
    var c, es, e := Started(CONSTANT, false, 1.0, 10.0), FirstBurst(), Ack(22, 10.0);
    FirstCut();
    StartsAtTen();
    QuietRunKeeps(c, es);
    CutIsAck(After(c, es), e);
    OneMore(c, es, e);
    AckWindow(After(c, es), e);
    assert CutsTo(c, es, e, 10.0, 8.0);
  }

  lemma AckWindow(c: Ctl, e: Event)
    requires Inv(c) && Legal(c, e) && Cuts(c, e) && c.nack == 0 && c.steer.cwnd == 10.0
    ensures c.Core() && c.Clocked() && Apply(c, e).steer.cwnd == 8.0
  {
    hide Inv, Cuts, Ctl.OnAck, Ctl.Sampled, Ctl.Steered, Ctl.Core;
    CoreOf(c);
    CutIsAck(c, e);
    AckMovesWindow(c, e.ack, e.sendTs);
  }

  /** Nineteen more acknowledgements, and one of a packet sent after the loss window has expired, empty the
      loss window again. */
  function Lull(): seq<Event> {
    AcksFrom(19, 10.0) + [Tick(19.0)] + Sends(22, 1) + [Tick(20.0)] + [Ack(23, 19.0)]
  }

  lemma LullEmpties(c: Ctl, es: seq<Event>)
    requires Inv(c) && Reached(c, es, 22, 0, 11.0, LossModel(Delivered(1), 11.0))
    ensures Reached(c, es + Lull(), 23, 0, 20.0, LossModel([], 20.0))
  {
    hide Inv, Reached, Legal, Cuts, LossModel.LossesCut, LossModel.Acked, AcksFrom, Sends, Delivered, LegalRun, After;
    var counted := LossModel(Delivered(20), 11.0);
    ThenEchoes(c, es, 22, 1, 19);
    var a := es + AcksFrom(19, 10.0);
    ThenTick(c, a, 22, 0, 11.0, counted, 19.0);
    var b := a + [Tick(19.0)];
    ThenSends(c, b, 22, 1, 19.0, counted);
    ThenTick(c, b + Sends(22, 1), 22, 1, 19.0, counted, 20.0);
    var d := b + Sends(22, 1) + [Tick(20.0)];
    ThenAck(c, d, 22, 1, 20.0, counted, 19.0);
    WindowEmpties();
    assert es + Lull() == d + [Ack(23, 19.0)];
  }

  /** Then the burst repeats. */
  function SecondBurst(): seq<Event> {
    [Tick(23.0)] + Sends(23, 22) + [Tick(24.0)]
  }

  lemma SecondCut(c: Ctl, es: seq<Event>)
    requires Inv(c) && Reached(c, es, 23, 0, 20.0, LossModel([], 20.0))
    ensures var all, e := es + SecondBurst(), Ack(45, 23.0);
      LegalRun(c, all) && Legal(After(c, all), e) && Cuts(After(c, all), e)
  {
    hide Inv, Flying, Legal, Cuts, LossModel.LossesCut, LossModel.Acked, Sends, LegalRun, After;
    var empty := LossModel([], 20.0);
    ThenTick(c, es, 23, 0, 20.0, empty, 23.0);
    var a := es + [Tick(23.0)];
    ThenSends(c, a, 23, 22, 23.0, empty);
    ThenTick(c, a + Sends(23, 22), 23, 22, 23.0, empty, 24.0);
    var b := a + Sends(23, 22) + [Tick(24.0)];
    BurstCuts(20.0, 24.0);
    ThenAck(c, b, 23, 22, 24.0, empty, 23.0);
    assert es + SecondBurst() == b;
  }

  lemma WindowEmpties()
    ensures LossModel(Delivered(20), 11.0).Acked(0, 20.0, 1.0) == LossModel([], 20.0)
  {
  }

  lemma CutsAt(c: Ctl, es: seq<Event>, e: Event, rest: seq<Event>)
    requires Inv(c) && LegalRun(c, es) && Legal(After(c, es), e) && Cuts(After(c, es), e)
    ensures CutAt(c, es + [e] + rest, |es|)
  {
    hide Inv, LegalRun, Legal, Cuts;
    assert (es + [e] + rest)[..|es|] == es;
  }

  /** Two cuts in one run without a restart do happen, so that they are spaced is no empty promise. */
  lemma TwoCutsAreReachable()
    ensures var c := Started(CONSTANT, false, 1.0, 10.0);
      exists es, i: nat, j: nat :: i < j && CutAt(c, es, i) && CutAt(c, es, j) && NoRestart(es[i + 1..j])
  {
    hide Inv, Started, LegalRun, Legal, Cuts, CutAt, Reached, After;
    var c, e, e' := Started(CONSTANT, false, 1.0, 10.0), Ack(22, 10.0), Ack(45, 23.0);
    FirstCut();
    var first := FirstBurst() + [e];
    LullEmpties(c, first);
    SecondCut(c, first + Lull());
    var before := first + Lull() + SecondBurst();
    var es, i, j := before + [e'] + [], |FirstBurst()|, |before|;
    CutsAt(c, before, e', []);
    assert es == FirstBurst() + [e] + (Lull() + SecondBurst() + [e']);
    CutsAt(c, FirstBurst(), e, Lull() + SecondBurst() + [e']);
    assert es[i + 1..j] == Lull() + SecondBurst();
    assert i < j && CutAt(c, es, i) && CutAt(c, es, j) && NoRestart(es[i + 1..j]);
  }

  // ---------------------------------------------------------------- a window that converges

  const QUICK := SlidingWindow.Sample(1.0, 1.0)
  const SLOW := SlidingWindow.Sample(100.0, 2.0)

  /** RTTs of 1 ms, all taken at time 1, and then RTTs of 2 ms, all taken at time 100. */
  ghost predicate Primed(r: RttModel) {
    && r.Nested() && r.minRtt.lo == 0
    && QuickThenSlow(r.minRtt.hist)
    && (if r.minRtt.hist == [] then r.srtt == 0.0 else 1.0 <= r.srtt <= 2.0)
  }

  ghost predicate QuickThenSlow(h: seq<SlidingWindow.Sample>) {
    && (h != [] ==> h[0] == QUICK)
    && forall i | 0 <= i < |h| :: h[i] == QUICK || h[i] == SLOW
  }

  lemma QuickThenSlowGrows(h: seq<SlidingWindow.Sample>, s: SlidingWindow.Sample)
    requires QuickThenSlow(h) && (s == QUICK || (s == SLOW && h != []))
    ensures QuickThenSlow(h + [s]) && (h + [s])[0] == QUICK
  {
  }

  lemma PrimedMin(r: RttModel)
    requires Primed(r) && r.minRtt.hist != []
    ensures r.minRtt.Value() == 1.0
  {
    var w := r.minRtt;
    assert !SlidingWindow.Beats(true, SlidingWindow.Sentinel(true), w.hist[0].v);
    SlidingWindow.BestIs(true, w.hist, 0);
  }

  /** What one more sample does to the smoothed RTT, and to the minimum window when its first sample is
      less than ten seconds old. */
  lemma AddedSample(r: RttModel, s: SlidingWindow.Sample)
    requires r.Valid() && r.MayAdd(s.ts) && r.minRtt.lo == 0
    requires (r.minRtt.hist + [s])[0].ts >= s.ts - 10000.0
    ensures var r' := r.Add(s.v, s.ts);
      && r'.minRtt.hist == r.minRtt.hist + [s] && r'.minRtt.lo == 0
      && r'.srtt == 1.0 / 16.0 * s.v + 15.0 / 16.0 * (if r.srtt == 0.0 then s.v else r.srtt)
  {
    hide SlidingWindow.Window.Value, SlidingWindow.Ordered, RttModel.Nested;
    var h, sz := r.minRtt.hist + [s], Max(10000.0, 20.0 * r.minRtt.Value());
    assert SlidingWindow.FirstLive(h, 0, s.ts - sz) == 0;
  }

  lemma PrimedAdd(r: RttModel, s: SlidingWindow.Sample)
    requires Primed(r) && (s == QUICK || (s == SLOW && r.minRtt.hist != [])) && r.MayAdd(s.ts)
    ensures Primed(r.Add(s.v, s.ts)) && r.Add(s.v, s.ts).minRtt.hist == r.minRtt.hist + [s]
  {
    hide SlidingWindow.Window.Value, SlidingWindow.Ordered, RttModel.Nested, RttModel.Add, RttModel.Valid,
         QuickThenSlow;
    NestedIsValid(r);
    AddKeepsNested(r, s.v, s.ts);
    QuickThenSlowGrows(r.minRtt.hist, s);
    AddedSample(r, s);
  }

  lemma NestedIsValid(r: RttModel)
    requires r.Nested()
    ensures r.Valid()
  {
  }

  /** Half a smoothed RTT after the slow samples began, the virgin window has forgotten the quick ones. */
  lemma SlowIsVirgin(r: RttModel)
    requires Primed(r) && r.minRtt.hist != [] && r.MayAdd(SLOW.ts)
    ensures r.Add(SLOW.v, SLOW.ts).virgin.Value() == 2.0
  {
    PrimedAdd(r, SLOW);
    PrimedMin(r);
    var w := r.Add(SLOW.v, SLOW.ts).virgin;
    var n := |w.hist| - 1;
    assert w.sz <= 1.0;
    SlidingWindow.FirstLiveIs(w.hist, r.virgin.lo, SLOW.ts - w.sz);
    SlidingWindow.BestIs(true, w.hist, w.lo);
    assert w.hist[n] == SLOW;
    assert w.hist[w.lo] == SLOW;
    forall i | w.lo <= i < |w.hist|
      ensures w.hist[i] == SLOW
    {
      SlidingWindow.OrderedAt(w.hist, w.lo, i);
    }
    assert !SlidingWindow.Beats(true, SlidingWindow.Sentinel(true), w.hist[n].v);
  }

  /** A controller in constant mode with such samples, nothing in flight and `n` acknowledgements seen. */
  ghost predicate Ready(c: Ctl, ts: real, n: nat) {
    && Inv(c) && c.dm.utility == CONSTANT && !c.steer.doSs
    && c.currTs == ts && Primed(c.rtt) && c.books.unacked == map[] && c.nack == n
  }

  lemma StartReady()
    ensures Ready(Started(CONSTANT, false, 1.0, 1.0), 1.0, 0) && AllQuick(Started(CONSTANT, false, 1.0, 1.0).rtt)
  {
    hide Inv, Started, Primed;
    StartIs(1.0);
    FreshIsPrimed();
  }

  lemma FreshIsPrimed()
    ensures Primed(FreshRtt())
  {
  }

  /** Neither the move of the window nor the losses touch the RTT samples. */
  lemma AckSample(c: Ctl, ack: int, sendTs: real)
    requires Inv(c) && sendTs <= c.currTs
    ensures var c' := c.OnAck(ack, sendTs);
      && c'.rtt == c.rtt.Add(c.currTs - sendTs, c.currTs)
      && c'.dm.utility == c.dm.utility && c'.steer.doSs == c.steer.doSs
  {
    hide Inv, Ctl.Core, RttModel.Add, RttModel.InMode, DeltaModel.Update, SteerModel.Update, Books.Acknowledged,
         LossModel.Acked, LossModel.LossesCut;
    CoreOf(c);
    SampledIs(c, sendTs);
  }

  /** An acknowledgement of nothing in flight, of a packet sent at `sendTs`, only adds its sample. */
  lemma ReadyAck(c: Ctl, ts: real, n: nat, sendTs: real)
    requires Ready(c, ts, n) && sendTs <= ts
    requires var s := SlidingWindow.Sample(ts, ts - sendTs); s == QUICK || (s == SLOW && c.rtt.minRtt.hist != [])
    ensures Legal(c, Ack(0, sendTs)) && !Cuts(c, Ack(0, sendTs))
    ensures c.Core() && c.Clocked() && Ready(Apply(c, Ack(0, sendTs)), ts, n + 1)
    ensures Apply(c, Ack(0, sendTs)).rtt.minRtt.hist == c.rtt.minRtt.hist + [SlidingWindow.Sample(ts, ts - sendTs)]
  {
    hide Inv, Ctl.OnAck, Primed, Ctl.Core;
    CoreOf(c);
    ApplyKeeps(c, Ack(0, sendTs));
    AckBooks(c, 0, sendTs);
    AckSample(c, 0, sendTs);
    assert c.books.LostBy(-1) == {};
    PrimedAdd(c.rtt, SlidingWindow.Sample(ts, ts - sendTs));
  }

  /** Every round trip so far took 1 ms. */
  ghost predicate AllQuick(r: RttModel) {
    forall i | 0 <= i < |r.minRtt.hist| :: r.minRtt.hist[i] == QUICK
  }

  lemma QuickHasNoQueue(r: RttModel)
    requires Primed(r) && AllQuick(r) && r.minRtt.hist != []
    ensures r.virgin.Value() == r.minRtt.Value()
  {
    PrimedMin(r);
    var w := r.virgin;
    SlidingWindow.BestIs(true, w.hist, w.lo);
    assert !SlidingWindow.Beats(true, SlidingWindow.Sentinel(true), w.hist[0].v);
  }

  lemma ReadyNoQueue(c: Ctl, n: nat)
    requires Ready(c, 1.0, n) && AllQuick(c.rtt)
    ensures NoQueue(c, 0.0)
  {
    hide Inv, Primed, Ctl.Core, RttModel.Add, Ctl.Sampled, RttModel.InOrder, DeltaModel.Update;
    CoreOf(c);
    CoreIs(c);
    SampledIs(c, 0.0);
    PrimedAdd(c.rtt, QUICK);
    QuickHasNoQueue(c.rtt.Add(1.0, 1.0));
  }

  /** With slow samples the window aims at 4 packets. */
  lemma ReadyAim(c: Ctl, n: nat)
    requires Ready(c, 100.0, n) && c.rtt.minRtt.hist != []
    ensures AimOf(c, 98.0) == Finite(4.0)
  {
    hide Inv, Primed, Ctl.Core, RttModel.Add, Ctl.Sampled, RttModel.InOrder, DeltaModel.Update;
    CoreOf(c);
    CoreIs(c);
    SampledIs(c, 98.0);
    SampledKeeps(c, 98.0);
    SlowIsVirgin(c.rtt);
    PrimedAdd(c.rtt, SLOW);
    PrimedMin(c.rtt.Add(SLOW.v, SLOW.ts));
  }

  lemma {:induction false} QuickAcks(c: Ctl, k: nat, n: nat)
    requires Inv(c) && Ready(c, 1.0, k) && AllQuick(c.rtt)
    ensures var es := AcksFrom(n, 0.0);
      && LegalRun(c, es) && NoRestart(es) && Acks(es) == n && Unqueued(c, es)
      && Ready(After(c, es), 1.0, k + n) && AllQuick(After(c, es).rtt)
    ensures n > 0 ==> After(c, AcksFrom(n, 0.0)).rtt.minRtt.hist != []
  {
    hide Inv, Ready, Legal, Apply, Ctl.Core, LegalRun, After, AcksFrom, Cuts, Unqueued, NoRestart, Acks, NoQueue;
    AcksFromStep(0, 0.0);
    if n == 0 {
      NoEvents(c);
      NothingQueued(c);
    } else {
      QuickAcks(c, k, n - 1);
      var m := After(c, AcksFrom(n - 1, 0.0));
      ReadyAck(m, 1.0, k + n - 1, 0.0);
      ReadyNoQueue(m, k + n - 1);
      UnqueuedMore(c, AcksFrom(n - 1, 0.0), Ack(0, 0.0));
      OneMore(c, AcksFrom(n - 1, 0.0), Ack(0, 0.0));
      AcksFromStep(n - 1, 0.0);
    }
  }

  lemma UnqueuedMore(c: Ctl, es: seq<Event>, e: Event)
    requires Inv(c) && LegalRun(c, es) && Unqueued(c, es) && NoRestart(es)
    requires Legal(After(c, es), e) && e.Ack? && !Cuts(After(c, es), e) && NoQueue(After(c, es), e.sendTs)
    ensures LegalRun(c, es + [e]) && Unqueued(c, es + [e]) && NoRestart(es + [e])
    ensures Acks(es + [e]) == Acks(es) + 1
  {
    hide Inv, Legal, Cuts, NoQueue, After;
    OneMore(c, es, e);
    assert (es + [e])[..|es|] == es;
  }

  lemma NothingQueued(c: Ctl)
    requires Inv(c)
    ensures LegalRun(c, []) && Unqueued(c, []) && NoRestart([]) && Acks([]) == 0
  {
  }

  lemma ReadyIsSteady(c: Ctl, ts: real, n: nat)
    requires Ready(c, ts, n)
    ensures c.steer.ss && c.nack == n && Inv(c)
  {
    SteadyOf(c);
  }

  /** The run that `c` makes with `es` meets every hypothesis of `GrowsWithoutQueue`, and its `n`
      acknowledgements grow the window by as many packets. */
  ghost predicate Growing(c: Ctl, es: seq<Event>, n: nat)
    requires Inv(c)
  {
    && c.nack == 19 && c.steer.ss && LegalRun(c, es) && NoRestart(es) && Unqueued(c, es) && Acks(es) == n
    && After(c, es).steer.cwnd >= c.steer.cwnd + n as real
  }

  ghost predicate LeadsToGrowth(c: Ctl, es: seq<Event>, n: nat)
    requires Inv(c)
  {
    LegalRun(c, es) && exists more :: Growing(After(c, es), more, n)
  }

  lemma ReadyGrows(c: Ctl, n: nat)
    requires Inv(c) && Ready(c, 1.0, 19) && AllQuick(c.rtt)
    ensures Growing(c, AcksFrom(n, 0.0), n)
  {
    hide Inv, Ready, LegalRun, After, AcksFrom, Unqueued, NoRestart, Acks;
    ReadyIsSteady(c, 1.0, 19);
    QuickAcks(c, 19, n);
    GrowsWithoutQueue(c, AcksFrom(n, 0.0));
  }

  /** Slow start without a queue happens: once nineteen round trips of 1 ms have been seen, any number `n` of
      further ones grows the window by `n` packets or more. */
  lemma GrowthIsReachable(n: nat)
    ensures exists es :: LeadsToGrowth(Started(CONSTANT, false, 1.0, 1.0), es, n)
  {
    hide Inv, Started, Ready, LegalRun, After, AcksFrom, Growing;
    var c := Started(CONSTANT, false, 1.0, 1.0);
    StartReady();
    QuickAcks(c, 0, 19);
    ReadyGrows(After(c, AcksFrom(19, 0.0)), n);
    assert LeadsToGrowth(c, AcksFrom(19, 0.0), n);
  }

  lemma AimedMore(c: Ctl, es: seq<Event>, e: Event, t: real)
    requires Inv(c) && LegalRun(c, es) && AimedAt(c, es, t) && NoRestart(es)
    requires Legal(After(c, es), e) && e.Ack? && !Cuts(After(c, es), e) && AimOf(After(c, es), e.sendTs) == Finite(t)
    ensures LegalRun(c, es + [e]) && AimedAt(c, es + [e], t) && NoRestart(es + [e])
    ensures Acks(es + [e]) == Acks(es) + 1
  {
    hide Inv, Legal, Cuts, AimOf, After;
    OneMore(c, es, e);
    assert (es + [e])[..|es|] == es;
  }

  lemma NothingAimed(c: Ctl, t: real)
    requires Inv(c)
    ensures LegalRun(c, []) && AimedAt(c, [], t) && NoRestart([]) && Acks([]) == 0
  {
  }

  lemma {:induction false} SlowAcks(c: Ctl, k: nat, n: nat)
    requires Inv(c) && Ready(c, 100.0, k) && c.rtt.minRtt.hist != []
    ensures var es := AcksFrom(n, 98.0);
      && LegalRun(c, es) && NoRestart(es) && Acks(es) == n && AimedAt(c, es, 4.0)
      && Ready(After(c, es), 100.0, k + n) && After(c, es).rtt.minRtt.hist != []
  {
    hide Inv, Ready, Legal, Apply, Ctl.Core, LegalRun, After, AcksFrom, Cuts, AimedAt, NoRestart, Acks, AimOf;
    if n == 0 {
      NoEvents(c);
      NothingAimed(c, 4.0);
      AcksFromStep(0, 98.0);
    } else {
      SlowAcks(c, k, n - 1);
      var m := After(c, AcksFrom(n - 1, 98.0));
      ReadyAck(m, 100.0, k + n - 1, 98.0);
      ReadyAim(m, k + n - 1);
      AimedMore(c, AcksFrom(n - 1, 98.0), Ack(0, 98.0), 4.0);
      OneMore(c, AcksFrom(n - 1, 98.0), Ack(0, 98.0));
      AcksFromStep(n - 1, 98.0);
    }
  }

  lemma ReadyTick(c: Ctl, n: nat)
    requires Ready(c, 1.0, n)
    ensures Legal(c, Tick(100.0)) && c.Core() && Ready(Apply(c, Tick(100.0)), 100.0, n)
    ensures Apply(c, Tick(100.0)).rtt == c.rtt
  {
    TickKeeps(c, 100.0);
  }

  /** How many acknowledgements `WindowConverges` asks for. */
  function Needed(cwnd: real, t: real): real {
    Max(cwnd, Max(2.0, t)) * Dist(cwnd, Max(2.0, t)) / 2.0
  }

  /** The run that `c` makes with `es` meets every hypothesis of `WindowConverges`. */
  ghost predicate Converging(c: Ctl, es: seq<Event>, t: real)
    requires Inv(c)
  {
    && c.dm.utility == CONSTANT && !c.steer.doSs && c.nack >= 2 * NPROBE - 1
    && LegalRun(c, es) && NoRestart(es) && AimedAt(c, es, t)
    && Acks(es) as real >= Needed(c.steer.cwnd, t)
  }

  lemma ConvergingMeets(c: Ctl, es: seq<Event>, t: real)
    requires Inv(c) && Converging(c, es, t)
    ensures Dist(After(c, es).steer.cwnd, Max(2.0, t)) <= 1.0
  {
    hide Inv, LegalRun, After, AimedAt, NoRestart, Acks, Dist, Max;
    WindowConverges(c, es, t);
  }

  lemma ReadyConverges(c: Ctl)
    requires Inv(c) && Ready(c, 100.0, 19) && c.rtt.minRtt.hist != []
    ensures exists es :: Converging(c, es, 4.0) && Dist(After(c, es).steer.cwnd, 4.0) <= 1.0
  {
    hide Inv, LegalRun, After, AcksFrom, AimedAt, NoRestart, Acks, Primed, Needed, Dist;
    var enough := Needed(c.steer.cwnd, 4.0);
    var n: nat := if enough < 0.0 then 0 else enough.Floor + 1;
    SlowAcks(c, 19, n);
    assert Converging(c, AcksFrom(n, 98.0), 4.0);
    ConvergingMeets(c, AcksFrom(n, 98.0), 4.0);
  }

  ghost predicate LeadsToConvergence(c: Ctl, es: seq<Event>)
    requires Inv(c)
  {
    LegalRun(c, es) && exists more ::
      var c' := After(c, es);
      Converging(c', more, 4.0) && Dist(After(c', more).steer.cwnd, 4.0) <= 1.0
  }

  lemma LeadsFrom(c: Ctl, es: seq<Event>)
    requires Inv(c) && LegalRun(c, es) && Ready(After(c, es), 100.0, 19) && After(c, es).rtt.minRtt.hist != []
    ensures LeadsToConvergence(c, es)
  {
    hide Inv, Ready, LegalRun, After, Converging, Dist;
    ReadyConverges(After(c, es));
  }

  /** Convergence is not promised of nothing: after nineteen round trips of 1 ms and a pause, round trips
      of 2 ms aim the window at 4 packets for as long as it takes to get there, and it does. */
  lemma ConvergenceIsReachable()
    ensures exists es :: LeadsToConvergence(Started(CONSTANT, false, 1.0, 1.0), es)
  {
    hide Inv, Started, Ready, Legal, Apply, Ctl.Core, LegalRun, After, AcksFrom, LeadsToConvergence;
    var c := Started(CONSTANT, false, 1.0, 1.0);
    StartReady();
    QuickAcks(c, 0, 19);
    var es := AcksFrom(19, 0.0);
    ReadyTick(After(c, es), 19);
    OneMore(c, es, Tick(100.0));
    LeadsFrom(c, es + [Tick(100.0)]);
  }
}
