/** What the invariants of `ControllerRuns` mean for whole runs of the controller. */
module ControllerTheorems {
  import opened Doubles
  import opened IntSets
  import opened PacketBooks
  import opened Steering
  import opened DeltaControl
  import opened LossReduction
  import opened RttWindows
  import opened Controller
  import opened ControllerRuns
  import SlidingWindow

  /** The controller as constructed, with its clock set and initialized. */
  ghost function Started(utility: Utility, doSs: bool, delta: real, ts: real): (c: Ctl)
    requires ts >= 0.0
    ensures Inv(c)
  {
    BootCore(utility, doSs, delta);
    RestartEstablishes(Boot(utility, doSs, delta), ts);
    Boot(utility, doSs, delta).SetTs(ts).Initialize()
  }

  ghost predicate NoRestart(es: seq<Event>) {
    forall e | e in es :: !e.Restart?
  }

  // ---------------------------------------------------------------- accounting

  /** In every reachable state each id sent since `initialize` is in flight, lost or acknowledged,
      never two of these, and the counters say how many of each there are. */
  lemma PacketsAreConserved(utility: Utility, doSs: bool, delta: real, ts: real, es: seq<Event>)
    requires ts >= 0.0 && LegalRun(Started(utility, doSs, delta, ts), es)
    ensures var b := After(Started(utility, doSs, delta, ts), es).books;
      && b.nsent == |b.unacked| + |b.lost| + |b.acked| && b.nlost == |b.lost|
      && b.unacked.Keys !! b.lost && b.unacked.Keys !! b.acked && b.lost !! b.acked
  {
    var c := After(Started(utility, doSs, delta, ts), es);
    assert c.books.Balanced();
  }

  /** Until the next `initialize` a classification is final: nothing lost or acknowledged is ever
      in flight again or classified differently. */
  lemma {:induction false} ClassificationIsFinal(c: Ctl, es: seq<Event>)
    requires Inv(c) && LegalRun(c, es) && NoRestart(es)
    ensures c.books.acked <= After(c, es).books.acked && c.books.lost <= After(c, es).books.lost
    ensures After(c, es).books.unacked.Keys !! c.books.acked + c.books.lost
    ensures c.books.acked !! After(c, es).books.lost && c.books.lost !! After(c, es).books.acked
  {
    assert c.books.Balanced() && After(c, es).books.Balanced();
    if es != [] {
      var n := |es| - 1;
      assert es[n] in es;
      ClassificationIsFinal(c, es[..n]);
      StepKeepsClassified(After(c, es[..n]), es[n]);
    }
  }

  lemma StepKeepsClassified(c: Ctl, e: Event)
    requires Inv(c) && Legal(c, e) && !e.Restart?
    ensures c.books.acked <= Apply(c, e).books.acked && c.books.lost <= Apply(c, e).books.lost
  {
    if e.Ack? {
      AckBooks(c, e.ack, e.sendTs);
    }
  }

  /** Neither the sample nor the window takes part in the accounting. */
  lemma AckBooks(c: Ctl, ack: int, sendTs: real)
    requires Inv(c) && sendTs <= c.currTs
    ensures c.OnAck(ack, sendTs).books == c.books.Acknowledged(ack - 1)
    ensures c.OnAck(ack, sendTs).currTs == c.currTs
    ensures c.OnAck(ack, sendTs).nack == c.nack + 1
    ensures c.OnAck(ack, sendTs).loss == c.loss.Acked(c.LossesBy(ack), c.currTs, c.currTs - sendTs)
  {
    hide Inv, Ctl.Core, Ctl.Sampled, SteerModel.Update, LossModel.Acked, LossModel.LossesCut;
    CoreOf(c);
    SampledKeeps(c, sendTs);
  }

  /** The estimates a reachable acknowledgement works with are in order, and no id in flight is below
      the -1 the walk starts from: the second and third abort of `on_ack` cannot happen. */
  lemma AbortsUnreachable(c: Ctl, sendTs: real)
    requires Inv(c) && sendTs <= c.currTs
    ensures c.Sampled(sendTs).rtt.virgin.Value() >= c.Sampled(sendTs).rttMin
    ensures forall k | k in c.books.unacked :: k >= -1
  {
    SampledKeeps(c, sendTs);
  }

  // ---------------------------------------------------------------- ages

  /** Looking only at the first entry of the map gives the same answer as looking at all of them:
      the larger of the virgin RTT and the age of every packet in flight. */
  lemma OldestFirstIsFullScan(c: Ctl, id: int)
    requires Inv(c) && c.books.Unissued(id)
    ensures var c' := c.OnPktSent(id);
      && c'.unackedRtt >= c.rtt.virgin.Value()
      && (forall k | k in c'.books.unacked :: c'.unackedRtt >= c'.currTs - c'.books.unacked[k].sentTs)
      && (c'.unackedRtt == c.rtt.virgin.Value()
          || exists k | k in c'.books.unacked :: c'.unackedRtt == c'.currTs - c'.books.unacked[k].sentTs)
  {
    hide Books.Balanced, Books.Timely, SlidingWindow.Window.Value, SlidingWindow.Window.Valid;
    SendKeeps(c, id);
    var c' := c.OnPktSent(id);
    assert id in c'.books.unacked.Keys;
    var first := Least(c'.books.unacked.Keys);
    assert first in c'.books.unacked;
    forall k | k in c'.books.unacked
      ensures c'.unackedRtt >= c'.currTs - c'.books.unacked[k].sentTs
    {
      LeastIsOldest(c'.books, c'.currTs, k);
    }
  }

  // ---------------------------------------------------------------- pacing

  /** The interval between packets spreads one window over half the virgin RTT it was set from. */
  lemma PacingMatchesWindow(c: Ctl)
    requires Inv(c)
    ensures 2.0 * c.intersend * c.steer.cwnd == c.pacedRtt
    ensures c.intersend >= 0.0 && c.steer.cwnd >= 2.0
  {
  }

  // ---------------------------------------------------------------- the step size

  /** The cwnd * delta the step size is compared with, if the event moves the window. */
  ghost function Compared(c: Ctl, e: Event): real
    requires Inv(c) && Legal(c, e)
  {
    if e.Ack? && c.nack >= 2 * NPROBE - 1 then
      var s := c.Sampled(e.sendTs);
      s.steer.Prepared(s.Aim(), s.rtt.curr, s.currTs).cwnd * s.dm.delta
    else 1.0
  }

  lemma EventStepSize(c: Ctl, e: Event)
    requires Inv(c) && Legal(c, e)
    ensures Apply(c, e).steer.updateAmt <= Max(Max(1.0, c.steer.updateAmt), Compared(c, e))
  {
    if e.Ack? {
      AckStepSize(c, e.ack, e.sendTs);
    }
  }

  lemma AckStepSize(c: Ctl, ack: int, sendTs: real)
    requires Inv(c) && sendTs <= c.currTs
    ensures c.OnAck(ack, sendTs).steer.updateAmt <= Max(c.steer.updateAmt, Compared(c, Ack(ack, sendTs)))
  {
    hide Inv, Ctl.Core, Ctl.Steered, Ctl.Reacted, SteerModel.Prepared, SteerModel.Stepped, IsPow2,
         Books.Acknowledged, LossModel.Acked, LossModel.Update, LossModel.Losses, LossModel.LossesCut, Ctl.Sampled,
         DeltaModel.Update, SlidingWindow.Window.Value, RttModel.InMode, RttModel.InOrder, RttModel.Valid, TargetFor;
    CoreOf(c);
    StepSizeOf(c);
    SampledKeeps(c, sendTs);
    var s := c.Sampled(sendTs);
    CoreIs(s);
    SteeredIs(s);
    ReactedIs(s.Steered(), ack);
    UpdateKeepsPow2(s.steer, s.Aim(), s.dm.delta, s.rtt.curr, s.currTs);
  }

  /** The largest cwnd * delta any step of the run was compared with, or 1 if that is larger. */
  ghost function PeakOf(c: Ctl, es: seq<Event>): real
    requires Inv(c) && LegalRun(c, es)
  {
    if es == [] then 1.0
    else
      var n := |es| - 1;
      Max(PeakOf(c, es[..n]), Compared(After(c, es[..n]), es[n]))
  }

  /** In every reachable state, whatever the mode, the restarts and the cuts on loss, the step size is a
      power of two between 1 and the largest cwnd * delta seen. */
  lemma {:induction false} StepSizeOverRuns(c: Ctl, es: seq<Event>)
    requires Inv(c) && LegalRun(c, es) && c.steer.updateAmt == 1.0
    ensures IsPow2(After(c, es).steer.updateAmt) && 1.0 <= After(c, es).steer.updateAmt <= PeakOf(c, es)
  {
    StepSizeOf(After(c, es));
    hide Inv, Apply, Compared;
    if es != [] {
      var n := |es| - 1;
      StepSizeOverRuns(c, es[..n]);
      EventStepSize(After(c, es[..n]), es[n]);
    }
  }

  lemma StepSizeOf(c: Ctl)
    requires Inv(c)
    ensures IsPow2(c.steer.updateAmt) && c.steer.updateAmt >= 1.0
  {
    AtLeastOne(c.steer.updateAmt);
  }

  // ---------------------------------------------------------------- what an acknowledgement does to the window

  ghost function AimOf(c: Ctl, sendTs: real): Target
    requires Inv(c) && sendTs <= c.currTs
  {
    c.Sampled(sendTs).Aim()
  }

  /** The aim is the window at which the queue it causes costs 1/delta packets: there is no bound while the
      virgin RTT is the minimum, and otherwise target * delta * (virgin - minimum) = virgin. */
  lemma AimIs(c: Ctl, sendTs: real)
    requires Inv(c) && sendTs <= c.currTs
    ensures var s, aim := c.Sampled(sendTs), AimOf(c, sendTs);
      && (aim.Unbounded? <==> s.rtt.virgin.Value() == s.rtt.minRtt.Value())
      && (aim.Finite? ==>
            Loaded(aim.t, s.dm.delta, s.rtt.virgin.Value() - s.rtt.minRtt.Value()) == s.rtt.virgin.Value())
  {
    hide Inv, Ctl.Core, RttModel.InOrder, Ctl.Sampled, SlidingWindow.Window.Value;
    CoreOf(c);
    SampledKeeps(c, sendTs);
    var s := c.Sampled(sendTs);
    if s.rtt.virgin.Value() != s.rttMin {
      QuotientIs(s.rtt.virgin.Value(), s.dm.delta, s.rtt.virgin.Value() - s.rttMin);
    }
  }

  function Loaded(t: real, delta: real, qd: real): real {
    t * (qd * delta)
  }

  lemma QuotientIs(rtt: real, delta: real, qd: real)
    requires delta > 0.0 && qd != 0.0
    ensures qd * delta != 0.0 && Loaded(rtt / (qd * delta), delta, qd) == rtt
  {
  }

  /** An acknowledgement moves the window by one steering step, from the twentieth on, and if it cuts takes a
      fifth of the result away, but never below two packets. Whenever the window has moved, the pacing
      interval spreads it over half the virgin RTT. */
  lemma AckMovesWindow(c: Ctl, ack: int, sendTs: real)
    requires Inv(c) && sendTs <= c.currTs
    ensures var s, c', cut := c.Sampled(sendTs), c.OnAck(ack, sendTs), Cuts(c, Ack(ack, sendTs));
      var w := s.Steered().steer.cwnd;
      && c'.steer.cwnd == (if cut then Max(2.0, 4.0 / 5.0 * w) else w)
      && (c.nack < 19 ==> w == c.steer.cwnd)
      && (c.nack >= 19 ==> w == c.steer.Update(AimOf(c, sendTs), s.dm.delta, c.currTs - sendTs, c.currTs).cwnd)
      && c'.pacedRtt == (if cut || c.nack >= 19 then s.rtt.virgin.Value() else c.pacedRtt)
      && c'.rtt == s.rtt
  {
    hide Inv, Ctl.Core, Ctl.Steered, Ctl.Reacted, SteerModel.Prepared, SteerModel.Stepped,
         Books.Acknowledged, LossModel.Acked, LossModel.Update, LossModel.Losses, LossModel.LossesCut, Ctl.Sampled,
         DeltaModel.Update, SlidingWindow.Window.Value, RttModel.InMode, RttModel.InOrder, RttModel.Valid, TargetFor;
    CoreOf(c);
    SampledKeeps(c, sendTs);
    var s := c.Sampled(sendTs);
    CoreIs(s);
    SteeredIs(s);
    ReactedIs(s.Steered(), ack);
  }

  /** So a cut never raises the window, takes exactly a fifth from one above 2.5 packets, and leaves two
      packets otherwise. */
  lemma CutTakesAFifth(c: Ctl, ack: int, sendTs: real)
    requires Inv(c) && sendTs <= c.currTs && Cuts(c, Ack(ack, sendTs))
    ensures var before, after := c.Sampled(sendTs).Steered().steer.cwnd, c.OnAck(ack, sendTs).steer.cwnd;
      && after <= before
      && (before >= 2.5 ==> after == before - before / 5.0)
      && (before <= 2.5 ==> after == 2.0)
  {
    hide Inv, Cuts, Ctl.Core, Ctl.OnAck, Ctl.Sampled, Ctl.Steered;
    CoreOf(c);
    AckMovesWindow(c, ack, sendTs);
    SampledKeeps(c, sendTs);
    CoreIs(c.Sampled(sendTs));
    SteeredIs(c.Sampled(sendTs));
    CoreIs(c.Sampled(sendTs).Steered());
  }

  /** What a whole acknowledgement does with delta: while the controller competes, in the cooperative mode always
      and in the automatic one while the mode test on the sampled estimates fails, 1/delta grows by one a round
      trip after the last time, and packets given up halve it, to no less than 2. Otherwise delta is the
      default, unless losses are less than a round trip old. */
  lemma AckSetsDelta(c: Ctl, ack: int, sendTs: real)
    requires Inv(c) && sendTs <= c.currTs
    ensures var d, d', s := c.dm, c.OnAck(ack, sendTs).dm, c.Sampled(sendTs);
      var lost, ts, rtt := c.LossesBy(ack) > 0, c.currTs, c.currTs - sendTs;
      var grows := d.lastUpdate + rtt < ts;
      var inv := (if d.lastUpdate == 0.0 then 2.0 else Inverse(d.delta)) + if grows then 1.0 else 0.0;
      if d.utility == COOP || (d.utility == AUTO && !s.rtt.InMode()) then
        Inverse(d'.delta) ==
          if !lost then inv
          else if d.lastLoss < ts then Max(2.0, inv / 2.0)
          else if !grows && d.lastUpdate < ts then inv + 1.0
          else inv
      else
        d'.delta ==
          if d.lastUpdate == 0.0 || d.lastLoss + rtt < ts || (lost && d.lastLoss < ts) then 0.5 else d.delta
  {
    AckUpdatesDelta(c, ack, sendTs);
    ClocksOf(c);
    hide Inv, Inverse, Ctl.OnAck, Ctl.Sampled, RttModel.InMode, DeltaModel.Update, Acked, Ctl.Core, RttModel.InOrder;
    AckedIs(c.dm, c.currTs - sendTs, c.currTs, c.Sampled(sendTs).rtt.InMode(), c.LossesBy(ack) > 0);
  }

  lemma ClocksOf(c: Ctl)
    requires Inv(c)
    ensures Clocks(c) && c.dm.Valid() && c.Core() && c.Clocked()
  {
  }

  lemma AckUpdatesDelta(c: Ctl, ack: int, sendTs: real)
    requires Inv(c) && sendTs <= c.currTs
    ensures c.Core() && c.Clocked() && c.dm.Valid() && c.Sampled(sendTs).rtt.Valid()
    ensures c.OnAck(ack, sendTs).dm ==
      Acked(c.dm, c.currTs - sendTs, c.currTs, c.Sampled(sendTs).rtt.InMode(), c.LossesBy(ack) > 0)
  {
    hide Ctl.Core, Books.Acknowledged, LossModel.Acked, LossModel.LossesCut, SteerModel.Update, DeltaModel.Update,
         RttModel.InMode, RttModel.Add, SlidingWindow.Window.Value, RttModel.InOrder;
    CoreOf(c);
    CoreIs(c);
    SampledIs(c, sendTs);
  }

  /** `initialize` forgets: two controllers with the same settings and the same current RTT are the same
      after it, whatever they have been through; a delta set in constant mode is forgotten too. */
  lemma RestartForgets(c: Ctl, d: Ctl, ts: real)
    requires c.dm.utility == d.dm.utility && c.steer.doSs == d.steer.doSs && c.rtt.curr == d.rtt.curr
    requires c.dm.utility == CONSTANT || c.dm.delta == d.dm.delta
    ensures c.SetTs(ts).Initialize() == d.SetTs(ts).Initialize()
    ensures var r := c.SetTs(ts).Initialize();
      && r.currTs == ts && r.steer == SteerModel(c.steer.doSs, true, 10.0, 1.0, 1, 1, 0.0) && r.intersend == 0.0
      && r.dm.op == DEFAULT && r.dm.lastUpdate == r.dm.lastLoss == 0.0
      && r.books == EMPTY_BOOKS && r.nack == 0 && r.loss == FRESH_LOSS && r.rtt.minRtt.hist == []
  {
  }

  /** No acknowledgement of the run sees a queue, that is a virgin RTT above the minimum, and none cuts. */
  ghost predicate Unqueued(c: Ctl, es: seq<Event>)
    requires Inv(c) && LegalRun(c, es)
  {
    es != [] ==>
      var n := |es| - 1;
      var m := After(c, es[..n]);
      && Unqueued(c, es[..n])
      && (es[n].Ack? ==> !Cuts(m, es[n]) && NoQueue(m, es[n].sendTs))
  }

  ghost predicate NoQueue(c: Ctl, sendTs: real)
    requires Inv(c) && sendTs <= c.currTs
  {
    var r := c.Sampled(sendTs).rtt;
    r.virgin.Value() == r.minRtt.Value()
  }

  lemma AckGrows(c: Ctl, ack: int, sendTs: real)
    requires Inv(c) && sendTs <= c.currTs && c.nack >= 19 && c.steer.ss
    requires !Cuts(c, Ack(ack, sendTs)) && NoQueue(c, sendTs)
    ensures var c' := c.OnAck(ack, sendTs); c'.steer.ss && c'.steer.cwnd > c.steer.cwnd + 1.0
  {
    hide Ctl.Core, SteerModel.Update, Books.Acknowledged, LossModel.Acked, LossModel.LossesCut, Ctl.Sampled,
         DeltaModel.Update, SlidingWindow.Window.Value;
    CoreIs(c);
    AimIs(c, sendTs);
    AckMovesWindow(c, ack, sendTs);
    SlowStartEndsIff(c, ack, sendTs);
    SampledKeeps(c, sendTs);
    SlowStartGrows(c.steer, c.Sampled(sendTs).dm.delta, c.currTs - sendTs, c.currTs);
  }

  /** While there is no queue slow start grows the window by more than one packet per acknowledgement, in every
      mode, with or without switching. */
  lemma {:induction false} GrowsWithoutQueue(c: Ctl, es: seq<Event>)
    requires Inv(c) && LegalRun(c, es) && NoRestart(es) && Unqueued(c, es) && c.steer.ss && c.nack >= 19
    ensures var c' := After(c, es);
      && c'.steer.ss && c'.nack >= c.nack && c'.steer.cwnd >= c.steer.cwnd + Acks(es) as real
      && (Acks(es) > 0 ==> c'.steer.cwnd > c.steer.cwnd + Acks(es) as real)
  {
    hide Inv, Ctl.OnAck, Ctl.OnPktSent, Cuts, NoQueue, RttModel.Nested;
    CoreOf(c);
    if es != [] {
      var n := |es| - 1;
      var m := After(c, es[..n]);
      assert es[n] in es;
      GrowsWithoutQueue(c, es[..n]);
      CoreOf(m);
      if es[n].Ack? {
        AckGrows(m, es[n].ack, es[n].sendTs);
        AckBooks(m, es[n].ack, es[n].sendTs);
      } else {
        QuietKeepsWindow(m, es[n]);
      }
    }
  }

  // ---------------------------------------------------------------- slow start

  /** An acknowledgement ends slow start exactly when slow-start switching is on, enough acknowledgements
      have been seen and the window reaches the finite target it steers towards. */
  lemma SlowStartEndsIff(c: Ctl, ack: int, sendTs: real)
    requires Inv(c) && sendTs <= c.currTs && c.steer.ss
    ensures var aim := AimOf(c, sendTs);
      !c.OnAck(ack, sendTs).steer.ss <==>
        c.steer.doSs && c.nack >= 2 * NPROBE - 1 && aim.Finite? && c.steer.cwnd + 1.0 >= aim.t
  {
    hide Ctl.Core, SteerModel.Update, Books.Acknowledged, LossModel.Acked, LossModel.LossesCut, Ctl.Sampled,
         DeltaModel.Update;
    CoreIs(c);
    SampledKeeps(c, sendTs);
    var s := c.Sampled(sendTs);
    SlowStartEnds(s.steer, s.Aim(), s.dm.delta, s.rtt.curr, s.currTs);
  }

  /** So without switching slow start never ends, in any mode, whatever happens, restarts included. */
  lemma {:induction false} NeverLeavesSlowStart(c: Ctl, es: seq<Event>)
    requires Inv(c) && LegalRun(c, es) && !c.steer.doSs
    ensures var s := After(c, es).steer; !s.doSs && s.ss && s.updateAmt == 1.0
  {
    hide Inv, Apply;
    if es == [] {
      SteadyOf(c);
    } else {
      var n := |es| - 1;
      NeverLeavesSlowStart(c, es[..n]);
      KeepsSwitch(After(c, es[..n]), es[n]);
      SteadyOf(After(c, es));
    }
  }

  lemma SteadyOf(c: Ctl)
    requires Inv(c)
    ensures !c.steer.doSs ==> c.steer.ss && c.steer.updateAmt == 1.0
  {
  }

  /** No event changes the switch, and only `initialize` brings slow start back. */
  lemma KeepsSwitch(c: Ctl, e: Event)
    requires Inv(c) && Legal(c, e)
    ensures Apply(c, e).steer.doSs == c.steer.doSs
    ensures !c.steer.ss && !e.Restart? ==> !Apply(c, e).steer.ss
  {
    hide Ctl.Core, Books.Acknowledged, LossModel.Acked, LossModel.LossesCut, Ctl.Sampled, DeltaModel.Update;
    CoreIs(c);
    if e.Ack? {
      SampledKeeps(c, e.sendTs);
    }
  }

  /** Once over, slow start stays over until the next `initialize`. */
  lemma {:induction false} SlowStartStaysOver(c: Ctl, es: seq<Event>)
    requires Inv(c) && LegalRun(c, es) && !c.steer.ss && NoRestart(es)
    ensures !After(c, es).steer.ss
  {
    hide Inv, Apply;
    if es != [] {
      var n := |es| - 1;
      assert es[n] in es;
      SlowStartStaysOver(c, es[..n]);
      KeepsSwitch(After(c, es[..n]), es[n]);
    }
  }

  // ---------------------------------------------------------------- loss

  /** The event is an acknowledgement that cuts the window. */
  ghost predicate Cuts(c: Ctl, e: Event)
    requires Inv(c) && Legal(c, e)
  {
    e.Ack? && c.loss.LossesCut(c.LossesBy(e.ack), c.currTs, c.currTs - e.sendTs)
  }

  /** A reachable acknowledgement cuts exactly when no update has been counted since the last reset,
      it gives up more than 20 packets at once, and two round-trip times have passed. */
  lemma CutsOnlyOnBursts(c: Ctl, e: Event)
    requires Inv(c) && Legal(c, e) && e.Ack?
    ensures Cuts(c, e) <==>
      c.loss.flags == [] && c.LossesBy(e.ack) > 20 && c.currTs > c.loss.lastWin + 2.0 * (c.currTs - e.sendTs)
  {
    CutNeedsBurst(c.loss, c.LossesBy(e.ack), c.currTs, c.currTs - e.sendTs);
  }

  /** Only acknowledgements and `initialize` touch the window and the
      loss counters. */
  lemma QuietKeepsWindow(c: Ctl, e: Event)
    requires Inv(c) && Legal(c, e) && (e.Tick? || e.Send?)
    ensures var c' := Apply(c, e);
      && c'.steer == c.steer && c'.dm == c.dm && c'.nack == c.nack
      && c'.intersend == c.intersend && c'.loss == c.loss
  {
  }

  lemma LossWindowOf(c: Ctl)
    requires Inv(c)
    ensures c.loss.EndsDelivered() && c.loss.lastWin <= c.currTs
  {
  }

  lemma StepKeepsLossWindow(c: Ctl, e: Event)
    requires Inv(c) && Legal(c, e) && !e.Restart?
    ensures c.loss.lastWin <= Apply(c, e).loss.lastWin
    ensures Cuts(c, e) ==> Apply(c, e).loss.lastWin == c.currTs > c.loss.lastWin + 2.0 * (c.currTs - e.sendTs)
  {
    hide Inv, Ctl.OnAck, Ctl.OnPktSent, LossModel.Acked, LossModel.LossesCut;
    LossWindowOf(c);
    CoreOf(c);
    if e.Ack? {
      AckBooks(c, e.ack, e.sendTs);
      WindowStartAdvances(c.loss, c.LossesBy(e.ack), c.currTs, c.currTs - e.sendTs);
    } else {
      QuietKeepsWindow(c, e);
    }
  }

  /** Between two calls of `initialize`, a cut is more than two round-trip times after any earlier
      one. */
  lemma {:induction false} CutsAreSpaced(c: Ctl, es: seq<Event>, e: Event, first: Event)
    requires Inv(c) && Legal(c, first) && Cuts(c, first)
    requires LegalRun(c, [first] + es) && NoRestart(es)
    requires Legal(After(c, [first] + es), e) && Cuts(After(c, [first] + es), e)
    ensures After(c, [first] + es).currTs > c.currTs + 2.0 * (After(c, [first] + es).currTs - e.sendTs)
  {
    LossWindowAfterCut(c, es, first);
    StepKeepsLossWindow(After(c, [first] + es), e);
  }

  lemma {:induction false} LossWindowAfterCut(c: Ctl, es: seq<Event>, first: Event)
    requires Inv(c) && Legal(c, first) && Cuts(c, first)
    requires LegalRun(c, [first] + es) && NoRestart(es)
    ensures After(c, [first] + es).loss.lastWin >= c.currTs
    decreases |es|
  {
    hide Inv, Apply;
    var all := [first] + es;
    var n := |all| - 1;
    if es == [] {
      assert all[..0] == [] && all[0] == first;
      StepKeepsLossWindow(c, first);
    } else {
      assert all[..n] == [first] + es[..n - 1] && all[n] == es[n - 1] && es[n - 1] in es;
      LossWindowAfterCut(c, es[..n - 1], first);
      StepKeepsLossWindow(After(c, all[..n]), all[n]);
    }
  }

  /** A run can be looked at in two parts. */
  lemma {:induction false} RunSplits(c: Ctl, a: seq<Event>, b: seq<Event>)
    requires Inv(c) && LegalRun(c, a + b)
    ensures LegalRun(c, a) && LegalRun(After(c, a), b) && After(c, a + b) == After(After(c, a), b)
    decreases |b|
  {
    hide Inv, Legal, Apply;
    if b == [] {
      assert a + b == a;
      NoEvents(After(c, a));
    } else {
      var n := |b| - 1;
      assert (a + b)[..|a + b| - 1] == a + b[..n] && (a + b)[|a + b| - 1] == b[n];
      RunSplits(c, a, b[..n]);
    }
  }

  /** Event `i` of the run is an acknowledgement that cuts the window. */
  ghost predicate CutAt(c: Ctl, es: seq<Event>, i: nat)
    requires Inv(c)
  {
    i < |es| && LegalRun(c, es[..i]) && Legal(After(c, es[..i]), es[i]) && Cuts(After(c, es[..i]), es[i])
  }

  /** Of any two cuts in one run, without a call of `initialize` in between, the later comes more than two
      of its round-trip times after the earlier. */
  lemma CutsInRunAreSpaced(c: Ctl, es: seq<Event>, i: nat, j: nat)
    requires Inv(c) && i < j && CutAt(c, es, i) && CutAt(c, es, j) && NoRestart(es[i + 1..j])
    ensures var late := After(c, es[..j]);
      late.currTs > After(c, es[..i]).currTs + 2.0 * (late.currTs - es[j].sendTs)
  {
    hide Inv, Legal, LegalRun, After, Cuts;
    assert es[..j] == es[..i] + ([es[i]] + es[i + 1..j]);
    RunSplits(c, es[..i], [es[i]] + es[i + 1..j]);
    CutIsAck(After(c, es[..j]), es[j]);
    CutsAreSpaced(After(c, es[..i]), es[i + 1..j], es[j], es[i]);
  }

  lemma CutIsAck(c: Ctl, e: Event)
    requires Inv(c) && Legal(c, e) && Cuts(c, e)
    ensures e.Ack?
  {
  }

  // ---------------------------------------------------------------- convergence

  function Acks(es: seq<Event>): nat {
    if es == [] then 0 else Acks(es[..|es| - 1]) + if es[|es| - 1].Ack? then 1 else 0
  }

  /** Every acknowledgement of the run aims at the same finite target and none cuts the window. */
  ghost predicate AimedAt(c: Ctl, es: seq<Event>, t: real)
    requires Inv(c) && LegalRun(c, es)
  {
    es != [] ==>
      var n := |es| - 1;
      var m := After(c, es[..n]);
      && AimedAt(c, es[..n], t)
      && (es[n].Ack? ==> !Cuts(m, es[n]) && AimOf(m, es[n].sendTs) == Finite(t))
  }

  lemma AckSteps(c: Ctl, ack: int, sendTs: real, t: real)
    requires Inv(c) && sendTs <= c.currTs && c.nack >= 2 * NPROBE - 1
    requires c.dm.utility == CONSTANT && !c.steer.doSs
    requires !Cuts(c, Ack(ack, sendTs)) && AimOf(c, sendTs) == Finite(t)
    ensures var c' := c.OnAck(ack, sendTs);
      c'.steer.cwnd == Step(c.steer.cwnd, t) && c'.dm.utility == CONSTANT && !c'.steer.doSs
  {
    hide Ctl.Core, SteerModel.Update, Books.Acknowledged, LossModel.Acked, LossModel.LossesCut, Ctl.Sampled, Step,
         DeltaModel.Update;
    SampledKeeps(c, sendTs);
    var c1 := c.Sampled(sendTs);
    assert c1.steer.Steady();
    SteadyUpdate(c1.steer, Finite(t), 0.5, c1.rtt.curr, c1.currTs);
  }

  /** Once the controller has seen enough acknowledgements, a run that aims at one finite target moves
      the window along the trajectory of `Steering.Step`, whatever is sent in between. */
  lemma {:induction false} RunFollowsTrajectory(c: Ctl, es: seq<Event>, t: real)
    requires Inv(c) && LegalRun(c, es) && NoRestart(es) && AimedAt(c, es, t)
    requires c.dm.utility == CONSTANT && !c.steer.doSs && c.nack >= 2 * NPROBE - 1
    ensures var c' := After(c, es);
      && c'.dm.utility == CONSTANT && !c'.steer.doSs && c'.nack >= c.nack
      && c'.steer.cwnd == Trajectory(c.steer.cwnd, t, Acks(es))
  {
    hide Inv, Ctl.OnAck, Ctl.OnPktSent, Step, Cuts, AimOf, RttModel.Nested;
    CoreOf(c);
    if es != [] {
      var n := |es| - 1;
      var m := After(c, es[..n]);
      assert es[n] in es;
      RunFollowsTrajectory(c, es[..n], t);
      CoreOf(m);
      if es[n].Ack? {
        AckSteps(m, es[n].ack, es[n].sendTs, t);
        AckBooks(m, es[n].ack, es[n].sendTs);
      } else {
        QuietKeepsWindow(m, es[n]);
      }
    }
  }

  /** Convergence of the whole controller: in constant mode, after c * |c0 - goal| / 2 acknowledgements
      that aim at a fixed finite target, the window is within one packet of the goal. */
  lemma WindowConverges(c: Ctl, es: seq<Event>, t: real)
    requires Inv(c) && LegalRun(c, es) && NoRestart(es) && AimedAt(c, es, t)
    requires c.dm.utility == CONSTANT && !c.steer.doSs && c.nack >= 2 * NPROBE - 1
    requires Acks(es) as real >= Max(c.steer.cwnd, Max(2.0, t)) * Dist(c.steer.cwnd, Max(2.0, t)) / 2.0
    ensures Dist(After(c, es).steer.cwnd, Max(2.0, t)) <= 1.0
  {
    hide Inv, Trajectory, Dist, Max, LegalRun, After, AimedAt;
    CoreOf(c);
    RunFollowsTrajectory(c, es, t);
    Converges(c.steer.cwnd, t, Acks(es));
  }
}
