/** The Eyenet congestion controller (vns/vns_eyenet.cc) as a state machine: what each of its four
    entry points does to the whole state, with the RTT windows replaced by their brute-force
    reference and the walk over unacknowledged packets by set operations. */
module Controller {
  import opened Doubles
  import opened Steering
  import opened DeltaControl
  import opened LossReduction
  import opened RttWindows
  import opened IntSets
  import opened PacketBooks
  import SlidingWindow

  const NPROBE := 10

  function Pace(rtt: real, cwnd: real): real
    requires cwnd > 0.0
  {
    0.5 * rtt / cwnd
  }

  /** `pacedRtt` is history: the virgin RTT used when the window last changed, 0 after `initialize`. */
  datatype Ctl = Ctl(
    steer: SteerModel, intersend: real, currIntersend: real, rttMin: real,
    dm: DeltaModel, rtt: RttModel, loss: LossModel, currTs: real,
    books: Books, unackedRtt: real, nack: int,
    lastIntersend: real, lastRtt: real, lastRttUpdateTs: real, pacedRtt: real)
  {
    /** What every state keeps, whatever is called. */
    ghost predicate Core() {
      && rtt.Nested() && dm.Valid()
      && steer.cwnd >= 2.0 && pacedRtt >= 0.0
      && intersend == currIntersend == Pace(pacedRtt, steer.cwnd)
    }

    /** No sample is newer than the clock. */
    ghost predicate Clocked() {
      rtt.MayAdd(currTs)
    }

    /** The packet the walk of `on_ack` visited last. */
    function LastVisited(): Packet {
      Packet(lastIntersend, lastRtt, lastRttUpdateTs)
    }

    ghost function SetTs(ts: real): Ctl {
      this.(currTs := ts)
    }

    ghost function Initialize(): Ctl {
      Ctl(
        SteerModel(steer.doSs, true, NPROBE as real, 1.0, 1, 1, 0.0), 0.0, 0.0, DOUBLE_MAX,
        DeltaModel(dm.utility, DEFAULT, if dm.utility == CONSTANT then 1.0 else dm.delta, 0.0, 0.0),
        rtt.Cleared(), FRESH_LOSS, currTs,
        EMPTY_BOOKS, 0.0, 0,
        0.0, 0.0, 0.0, 0.0)
    }

    /** The window moves and the pacing interval follows it. */
    ghost function Repaced(s: SteerModel): Ctl
      requires s.cwnd > 0.0 && rtt.Valid()
    {
      var rtt := rtt.virgin.Value();
      this.(steer := s, pacedRtt := rtt, currIntersend := Pace(rtt, s.cwnd), intersend := Pace(rtt, s.cwnd))
    }

    // ---------------------------------------------------------------- on_ack, part by part

    ghost function Sampled(sendTs: real): (c: Ctl)
      requires Core() && Clocked() && sendTs <= currTs
      ensures c.dm.Settled() && c.rtt.Valid() && c.Core()
    {
      hide SlidingWindow.FirstLive, SlidingWindow.Window.Value, SlidingWindow.Window.Add, DeltaModel.Update;
      AddKeepsNested(rtt, currTs - sendTs, currTs);
      var r := rtt.Add(currTs - sendTs, currTs);
      this.(rtt := r, rttMin := r.minRtt.Value(), dm := dm.Update(false, currTs - sendTs, currTs, r.InMode()))
    }

    /** The window that `on_ack` steers towards. */
    ghost function Aim(): Target
      requires rtt.Valid() && dm.Settled()
    {
      TargetFor(rtt.virgin.Value(), rttMin, dm.delta)
    }

    ghost function Steered(): Ctl
      requires rtt.Valid() && dm.Settled() && steer.cwnd >= 2.0
    {
      if nack < 2 * NPROBE - 1 then this
      else Repaced(steer.Update(Aim(), dm.delta, rtt.curr, currTs))
    }

    /** How many packets an acknowledgement gives up as lost. */
    function LossesBy(ack: int): nat {
      |books.LostBy(ack - 1)|
    }

    function Walked(ack: int): Ctl {
      var seqNo := ack - 1;
      if seqNo !in books.unacked then this
      else
        var p := books.unacked[seqNo];
        this.(books := books.Acknowledged(seqNo),
              lastIntersend := p.intersend, lastRtt := p.rtt, lastRttUpdateTs := p.sentTs)
    }

    /** The acknowledgement cuts the window. */
    predicate CutBy(ack: int) {
      loss.LossesCut(LossesBy(ack), currTs, rtt.curr)
    }

    ghost function Reacted(ack: int): Ctl
      requires rtt.Valid() && dm.Valid()
    {
      var n := LossesBy(ack);
      var d := Walked(ack).(
        dm := if n > 0 then dm.Update(true, 0.0, currTs, rtt.InMode()) else dm,
        loss := loss.Acked(n, currTs, rtt.curr),
        nack := nack + 1);
      if CutBy(ack) then d.Repaced(steer.Cut()) else d
    }

    ghost function OnAck(ack: int, sendTs: real): Ctl
      requires Core() && Clocked() && sendTs <= currTs
    {
      Sampled(sendTs).Steered().Reacted(ack)
    }

    // ---------------------------------------------------------------- on_pkt_sent

    ghost function OnPktSent(id: int): Ctl
      requires rtt.Valid()
    {
      var rtt := rtt.virgin.Value();
      var b := books.Sent(id, Packet(currIntersend, rtt, currTs));
      assert id in b.unacked.Keys;
      var oldest := b.unacked[Least(b.unacked.Keys)];
      var age := currTs - oldest.sentTs;
      this.(
        books := b,
        unackedRtt := if age > rtt then age else rtt,
        lastIntersend := if age > rtt then oldest.intersend else lastIntersend,
        intersend := currIntersend)
    }
  }

  function Boot(utility: Utility, doSs: bool, delta: real): Ctl {
    Ctl(
      SteerModel(doSs, false, 2.0, 0.0, 0, 0, 0.0), 0.0, 0.0, 0.0,
      DeltaModel(utility, DEFAULT, delta, 0.0, 0.0), FreshRtt(), FRESH_LOSS, 0.0,
      EMPTY_BOOKS, 0.0, 0,
      0.0, 0.0, 0.0, 0.0)
  }

  lemma BootCore(utility: Utility, doSs: bool, delta: real)
    ensures Boot(utility, doSs, delta).Core()
  {
  }

  lemma PaceIs(rtt: real, cwnd: real)
    requires cwnd > 0.0
    ensures 2.0 * Pace(rtt, cwnd) * cwnd == rtt
    ensures rtt >= 0.0 ==> Pace(rtt, cwnd) >= 0.0
  {
  }
}
