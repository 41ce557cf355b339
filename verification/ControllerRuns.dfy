/** What holds in every state the controller can reach, for any interleaving of its entry points a
    transport may make: packet ids handed out in increasing order, a clock that does not run
    backwards between two calls of `initialize`, and acknowledgements of packets already sent. */
module ControllerRuns {
  import opened PacketBooks
  import opened Steering
  import opened DeltaControl
  import opened LossReduction
  import opened RttWindows
  import opened Controller
  import SlidingWindow

  /** Without slow-start switching the controller never leaves slow start and its step size stays one, in
      every mode; in constant mode delta is then 1/2 from the first acknowledgement on. */
  ghost predicate WithoutSwitching(c: Ctl) {
    !c.steer.doSs ==>
      && c.steer.Steady()
      && (c.dm.utility == CONSTANT ==>
            c.dm.op == DEFAULT && if c.nack == 0 then c.dm.lastUpdate == 0.0 else c.dm.delta == DEFAULT_DELTA)
  }

  ghost predicate LossWindow(c: Ctl) {
    c.loss.EndsDelivered() && c.loss.lastWin <= c.currTs
  }

  /** The clock has not been before zero; 0 stands for no update of delta yet. */
  ghost predicate Clocks(c: Ctl) {
    c.currTs >= 0.0 && c.dm.lastUpdate >= 0.0 && (c.dm.op == LOSS ==> c.dm.utility == AUTO)
  }

  ghost predicate Inv(c: Ctl) {
    && c.Core() && c.Clocked()
    && c.books.Balanced() && c.books.Timely(c.currTs) && LossWindow(c) && Clocks(c)
    && IsPow2(c.steer.updateAmt) && WithoutSwitching(c)
    && c.nack >= 0 && (forall k | k in c.books.unacked :: k >= 0)
  }

  datatype Event = Restart(ts: real) | Tick(ts: real) | Send(id: int) | Ack(ack: int, sendTs: real)

  ghost predicate Legal(c: Ctl, e: Event) {
    match e
    case Restart(ts) => ts >= 0.0
    case Tick(ts) => ts >= c.currTs
    case Send(id) => c.books.Unissued(id)
    case Ack(_, sendTs) => sendTs <= c.currTs
  }

  ghost function Apply(c: Ctl, e: Event): Ctl
    requires c.Core() && (e.Ack? ==> c.Clocked() && e.sendTs <= c.currTs)
  {
    match e
    case Restart(ts) => c.SetTs(ts).Initialize()
    case Tick(ts) => c.SetTs(ts)
    case Send(id) => c.OnPktSent(id)
    case Ack(ack, sendTs) => c.OnAck(ack, sendTs)
  }

  // ---------------------------------------------------------------- each event keeps the invariant

  /** `initialize` establishes the invariant from any state. */
  lemma RestartEstablishes(c: Ctl, ts: real)
    requires c.Core() && ts >= 0.0
    ensures Inv(c.SetTs(ts).Initialize())
  {
    assert 1.0 == Pow2(0);
    var c' := c.SetTs(ts).Initialize();
    assert c'.rtt.Nested();
    PaceIs(0.0, 10.0);
  }

  lemma InitializedCore(c: Ctl)
    requires c.Core()
    ensures c.Initialize().Core()
  {
  }

  lemma TickKeeps(c: Ctl, ts: real)
    requires Inv(c) && ts >= c.currTs
    ensures Inv(c.SetTs(ts))
  {
  }

  lemma SendKeeps(c: Ctl, id: int)
    requires Inv(c) && c.books.Unissued(id)
    ensures Inv(c.OnPktSent(id))
  {
    hide Books.Balanced, Books.Timely, SlidingWindow.Window.Valid, SlidingWindow.Window.Value;
    var p := Packet(c.currIntersend, c.rtt.virgin.Value(), c.currTs);
    UnissuedIsNew(c.books, id);
    SentKeepsBalance(c.books, id, p);
    SentKeepsTimely(c.books, id, p, c.currTs);
  }

  lemma UnissuedIsNew(b: Books, id: int)
    requires b.Unissued(id)
    ensures id !in b.unacked && id !in b.acked && id !in b.lost
  {
    assert id !in b.Issued();
  }

  // ---------------------------------------------------------------- acknowledgements, part by part

  /** Taking the sample. The ordering of the estimates makes the second abort of `on_ack`
      unreachable. */
  lemma SampledKeeps(c: Ctl, sendTs: real)
    requires Inv(c) && sendTs <= c.currTs
    ensures var c' := c.Sampled(sendTs);
      && c' == c.(rtt := c'.rtt, rttMin := c'.rttMin, dm := c'.dm)
      && c'.Core() && c'.Clocked() && c'.dm.Settled()
      && c'.rtt.InOrder() && c'.rttMin == c'.rtt.minRtt.Value() <= c'.rtt.virgin.Value()
      && c'.rtt.curr == c.currTs - sendTs >= 0.0
      && c'.dm.utility == c.dm.utility && Clocks(c')
      && (c.dm.utility == CONSTANT && !c.steer.doSs ==> c'.dm.op == DEFAULT && c'.dm.delta == DEFAULT_DELTA)
  {
    hide SlidingWindow.FirstLive, SlidingWindow.Window.Value, SlidingWindow.Window.Valid, RttModel.InOrder;
    AddKeepsNested(c.rtt, c.currTs - sendTs, c.currTs);
    NestedIsInOrder(c.rtt.Add(c.currTs - sendTs, c.currTs));
  }

  lemma RepacedKeepsCore(c: Ctl, s: SteerModel)
    requires c.Core() && s.cwnd >= 2.0
    ensures c.Repaced(s).Core()
  {
    hide SlidingWindow.Window.Value, SlidingWindow.Window.Valid, Pace;
    EstimatesNotNegative(c.rtt);
  }

  lemma CoreIs(c: Ctl)
    requires c.Core()
    ensures c.rtt.Nested() && c.rtt.Valid() && c.dm.Valid() && c.steer.cwnd >= 2.0
  {
  }

  /** Taking a sample from any state leaves the estimates in order. */
  lemma SampledIs(c: Ctl, sendTs: real)
    requires c.Core() && c.Clocked() && sendTs <= c.currTs
    ensures var c' := c.Sampled(sendTs);
      && c' == c.(rtt := c.rtt.Add(c.currTs - sendTs, c.currTs), rttMin := c'.rtt.minRtt.Value(),
                  dm := c.dm.Update(false, c.currTs - sendTs, c.currTs, c'.rtt.InMode()))
      && c'.Core() && c'.dm.Settled() && c'.rttMin <= c'.rtt.virgin.Value()
  {
    hide SlidingWindow.FirstLive, SlidingWindow.Window.Value, SlidingWindow.Window.Valid, RttModel.InMode;
    AddKeepsNested(c.rtt, c.currTs - sendTs, c.currTs);
    NestedIsInOrder(c.rtt.Add(c.currTs - sendTs, c.currTs));
  }

  lemma ReactedCore(c: Ctl, ack: int)
    requires c.Core()
    ensures c.Reacted(ack).Core()
  {
    hide SlidingWindow.Window.Value, SlidingWindow.Window.Valid, RttModel.InMode, RttModel.Valid, Pace,
         LossModel.LossesCut, Books.Acknowledged, LossModel.Acked;
    RepacedKeepsCore(c, c.steer.Cut());
  }

  /** What the rest of `on_ack` does, part by part. */
  lemma ReactedIs(c: Ctl, ack: int)
    requires c.Core()
    ensures var n, cut, r := c.LossesBy(ack), c.CutBy(ack), c.Reacted(ack);
      && r.rtt == c.rtt && r.rttMin == c.rttMin && r.currTs == c.currTs && r.unackedRtt == c.unackedRtt
      && r.books == c.books.Acknowledged(ack - 1) && r.nack == c.nack + 1
      && r.LastVisited() == (if ack - 1 in c.books.unacked then c.books.unacked[ack - 1] else c.LastVisited())
      && r.dm == (if n > 0 then c.dm.Update(true, 0.0, c.currTs, c.rtt.InMode()) else c.dm)
      && r.loss == c.loss.Losses(n, c.currTs, c.rtt.curr).Update(false, c.currTs, c.rtt.curr)
      && r.steer == (if cut then c.steer.Cut() else c.steer)
      && r.pacedRtt == (if cut then c.rtt.virgin.Value() else c.pacedRtt)
      && r.currIntersend == (if cut then Pace(r.pacedRtt, r.steer.cwnd) else c.currIntersend)
      && r.intersend == (if cut then r.currIntersend else c.intersend)
  {
    hide SlidingWindow.Window.Value, SlidingWindow.Window.Valid, RttModel.InMode, RttModel.Valid, Pace,
         LossModel.LossesCut, LossModel.Losses, LossModel.Update, DeltaModel.Update;
  }

  /** What `update_intersend` does, unfolded one level. */
  lemma SteeredIs(c: Ctl)
    requires c.Core() && c.dm.Settled()
    ensures c.Steered().Core()
    ensures c.Steered() ==
      if c.nack < 2 * NPROBE - 1 then c
      else c.Repaced(c.steer.Prepared(c.Aim(), c.rtt.curr, c.currTs).Stepped(c.Aim(), c.dm.delta))
  {
    hide SlidingWindow.Window.Value, SlidingWindow.Window.Valid, RttModel.Valid, Pace, TargetFor,
         SteerModel.Prepared, SteerModel.Stepped;
    RepacedKeepsCore(c, c.steer.Update(c.Aim(), c.dm.delta, c.rtt.curr, c.currTs));
  }

  /** Moving the window. */
  lemma SteeredKeeps(c: Ctl)
    requires c.Core() && c.dm.Settled() && IsPow2(c.steer.updateAmt)
    requires !c.steer.doSs ==> c.steer.Steady()
    ensures var c' := c.Steered();
      && c' == c.(steer := c'.steer, pacedRtt := c'.pacedRtt,
                  currIntersend := c'.currIntersend, intersend := c'.intersend)
      && c'.Core() && IsPow2(c'.steer.updateAmt) && c'.steer.doSs == c.steer.doSs
      && (!c.steer.doSs ==> c'.steer.Steady())
  {
    hide SlidingWindow.Window.Value, SlidingWindow.Window.Valid, RttModel.Valid, Pace, IsPow2, SteerModel.Update,
         TargetFor;
    if c.nack >= 2 * NPROBE - 1 {
      var s := c.steer.Update(c.Aim(), c.dm.delta, c.rtt.curr, c.currTs);
      UpdateKeepsPow2(c.steer, c.Aim(), c.dm.delta, c.rtt.curr, c.currTs);
      if c.steer.Steady() {
        SteadyUpdate(c.steer, c.Aim(), c.dm.delta, c.rtt.curr, c.currTs);
      }
      RepacedKeepsCore(c, s);
    }
  }

  /** Classifying packets, and the cut. */
  lemma ReactedKeeps(c: Ctl, ack: int)
    requires c.Core() && c.Clocked() && c.dm.Settled() && c.rtt.curr >= 0.0 && c.nack >= 0
    requires c.books.Balanced() && c.books.Timely(c.currTs) && LossWindow(c) && Clocks(c) && IsPow2(c.steer.updateAmt)
    requires forall k | k in c.books.unacked :: k >= 0
    requires !c.steer.doSs ==> c.steer.Steady()
    requires c.dm.utility == CONSTANT && !c.steer.doSs ==> c.dm.op == DEFAULT && c.dm.delta == DEFAULT_DELTA
    ensures Inv(c.Reacted(ack))
  {
    hide Ctl.Core, Ctl.Reacted, SlidingWindow.Window.Value, SlidingWindow.Window.Valid, RttModel.Valid, Pace, IsPow2,
         LossModel.LossesCut, LossModel.Losses, LossModel.Update, LossModel.Acked, DeltaModel.Update, Books.Balanced,
         Books.Timely, Books.Acknowledged, Books.LostBy;
    ReactedCore(c, ack);
    ReactedIs(c, ack);
    AcknowledgedKeepsBalance(c.books, ack - 1);
    AcknowledgedKeepsTimely(c.books, ack - 1, c.currTs);
    AcknowledgedKeepsKeys(c.books, ack - 1);
    AckedIsLast(c.loss, c.LossesBy(ack), c.currTs, c.rtt.curr);
    CutNeedsBurst(c.loss, c.LossesBy(ack), c.currTs, c.rtt.curr);
    WindowStartAdvances(c.loss, c.LossesBy(ack), c.currTs, c.rtt.curr);
    CoreIs(c);
    if c.dm.utility == CONSTANT && !c.steer.doSs {
      ConstantStays(c.dm, true, 0.0, c.currTs, c.rtt.InMode());
    }
  }

  lemma AckedIsLast(m: LossModel, n: nat, ts: real, rtt: real)
    ensures m.Losses(n, ts, rtt).Update(false, ts, rtt) == m.Acked(n, ts, rtt)
  {
  }

  lemma AckKeeps(c: Ctl, ack: int, sendTs: real)
    requires Inv(c) && sendTs <= c.currTs
    ensures Inv(c.OnAck(ack, sendTs))
  {
    hide Ctl.Sampled, Ctl.Steered, Ctl.Reacted, IsPow2, Books.Balanced, Books.Timely;
    SampledKeeps(c, sendTs);
    var c1 := c.Sampled(sendTs);
    SteeredKeeps(c1);
    ReactedKeeps(c1.Steered(), ack);
  }

  // ---------------------------------------------------------------- runs

  lemma ApplyKeeps(c: Ctl, e: Event)
    requires Inv(c) && Legal(c, e)
    ensures Inv(Apply(c, e))
  {
    hide Inv, Ctl.OnAck, Ctl.OnPktSent, Ctl.Initialize;
    assert c.Core() by { CoreOf(c); }
    match e
    case Restart(ts) => RestartEstablishes(c, ts);
    case Tick(ts) => TickKeeps(c, ts);
    case Send(id) => SendKeeps(c, id);
    case Ack(ack, sendTs) => AckKeeps(c, ack, sendTs);
  }

  lemma CoreOf(c: Ctl)
    requires Inv(c)
    ensures c.Core() && c.Clocked()
  {
  }

  ghost predicate LegalRun(c: Ctl, es: seq<Event>)
    requires Inv(c)
    decreases |es|, 0
  {
    es != [] ==>
      var n := |es| - 1;
      LegalRun(c, es[..n]) && Legal(After(c, es[..n]), es[n])
  }

  /** The state after a legal run; it satisfies the invariant. */
  ghost function After(c: Ctl, es: seq<Event>): (c': Ctl)
    requires Inv(c) && LegalRun(c, es)
    ensures Inv(c')
    decreases |es|, 1
  {
    hide Ctl.Core;
    if es == [] then c
    else
      var n := |es| - 1;
      ApplyKeeps(After(c, es[..n]), es[n]);
      CoreOf(After(c, es[..n]));
      Apply(After(c, es[..n]), es[n])
  }

  lemma NoEvents(c: Ctl)
    requires Inv(c)
    ensures LegalRun(c, []) && After(c, []) == c
  {
  }

  lemma OneMore(c: Ctl, es: seq<Event>, e: Event)
    requires Inv(c) && LegalRun(c, es) && Legal(After(c, es), e)
    ensures LegalRun(c, es + [e]) && After(c, es + [e]) == Apply(After(c, es), e)
  {
    assert (es + [e])[..|es|] == es;
  }
}
