/** The Eyenet controller as the source writes it: one object whose methods update its fields. Every
    method is proved to do to the whole state what `Controller.Ctl` says. */
module Eyenet {
  import opened Doubles
  import opened IntSets
  import opened PacketBooks
  import opened Steering
  import opened DeltaControl
  import opened LossReduction
  import opened RttWindows
  import opened Controller
  import opened ControllerRuns
  import SlidingWindow

  /** How `on_ack` ends: it returns, or it prints a message and exits the process. */
  datatype Outcome = Done | SendTimeInFuture | RttBelowMinimum | MalformedUnacked

  /** A weighted mean moves from `e` towards `val` by the share `a` of their distance. */
  lemma MeanBetween(a: real, e: real, val: real)
    ensures a * val + (1.0 - a) * e - e == a * (val - e)
    ensures 0.0 <= a <= 1.0 ==> Min(e, val) <= a * val + (1.0 - a) * e <= Max(e, val)
  {
    var mean, share := a * val + (1.0 - a) * e, a * (val - e);
    assert mean == e + share;
    if 0.0 <= a <= 1.0 {
      if val >= e {
        ShareOf(a, val - e);
      } else {
        ShareOf(a, e - val);
        assert share == -(a * (e - val));
      }
    }
  }

  lemma ShareOf(a: real, d: real)
    requires 0.0 <= a <= 1.0 && d >= 0.0
    ensures 0.0 <= a * d <= d
  {
    assert (1.0 - a) * d >= 0.0;
  }

  class Ewma {
    var e: real
    const a: real
    var isValid: bool

    constructor (a: real)
      ensures e == 0.0 && this.a == a && !isValid
    {
      e, this.a, isValid := 0.0, a, false;
    }

    method Set(val: real)
      modifies this
      ensures e == val && isValid
    {
      isValid := true;
      e := val;
    }

    method Update(val: real)
      modifies this
      ensures isValid && e - old(e) == a * (val - old(e))
      ensures 0.0 <= a <= 1.0 ==> Min(old(e), val) <= e <= Max(old(e), val)
    {
      MeanBetween(a, e, val);
      isValid := true;
      e := a * val + (1.0 - a) * e;
    }

    method Clear()
      modifies this
      ensures e == 0.0 && isValid == old(isValid)
    {
      e := 0.0;
    }
  }

  class Eyenet {
    const doSs: bool
    const utilityType: Utility
    var lastUpdateDir: int
    var nack: int
    var nlost: int
    var nsent: int
    var updateDir: int
    var currIntersend: real
    var currTs: real
    var delta: real
    var lastDeltaUpdateTs: real
    var lastDeltaLossUpdateTs: real
    var lastIntersend: real
    var lastRtt: real
    var lastRttUpdateTs: real
    var lastUpdateTs: real
    var rttMin: real
    var updateAmt: real
    var ss: bool
    var unackedPkts: map<int, Packet>
    const unackedRtt: Ewma
    const rttSample: RttWin
    const reduceOnLoss: LossReduce
    var operationType: Operation
    var cwnd: real
    var intersend: real
    ghost var acked: set<int>
    ghost var lost: set<int>
    ghost var pacedRtt: real

    ghost function Repr(): set<object> {
      {this, unackedRtt, reduceOnLoss} + rttSample.Repr()
    }

    ghost function Steer(): SteerModel
      reads this
    {
      SteerModel(doSs, ss, cwnd, updateAmt, updateDir, lastUpdateDir, lastUpdateTs)
    }

    ghost function Delta(): DeltaModel
      reads this
    {
      DeltaModel(utilityType, operationType, delta, lastDeltaUpdateTs, lastDeltaLossUpdateTs)
    }

    /** The packet the walk of `on_ack` visited last. */
    ghost function LastVisited(): Packet
      reads this
    {
      Packet(lastIntersend, lastRtt, lastRttUpdateTs)
    }

    ghost function Record(): Books
      reads this
    {
      Books(unackedPkts, nlost, nsent, acked, lost)
    }

    ghost function Model(): Ctl
      reads Repr()
    {
      Ctl(Steer(), intersend, currIntersend, rttMin, Delta(),
          rttSample.model, reduceOnLoss.model, currTs,
          Record(), unackedRtt.e, nack,
          lastIntersend, lastRtt, lastRttUpdateTs, pacedRtt)
    }

    ghost predicate Valid()
      reads Repr()
    {
      && rttSample.Valid() && reduceOnLoss.Valid() && unackedRtt.a == 1.0
      && {this, unackedRtt, reduceOnLoss} !! rttSample.Repr()
      && Model().Core()
    }

    lemma CoreOfModel()
      requires Valid()
      ensures Model().Core() && cwnd >= 2.0
    {
    }

    constructor (delta: real, utilityType: Utility, doSs: bool)
      ensures Valid() && fresh(Repr())
      ensures Model() == Boot(utilityType, doSs, delta)
    {
      hide Ctl.Core, RttWin.Valid, LossReduce.Valid, RttModel.Valid, SlidingWindow.Fresh;
      this.doSs, this.utilityType, this.delta := doSs, utilityType, delta;
      lastUpdateDir, nack, nlost, nsent, updateDir := 0, 0, 0, 0, 0;
      currIntersend, currTs, lastDeltaUpdateTs, lastDeltaLossUpdateTs := 0.0, 0.0, 0.0, 0.0;
      lastIntersend, lastRtt, lastRttUpdateTs, lastUpdateTs, rttMin, updateAmt := 0.0, 0.0, 0.0, 0.0, 0.0, 0.0;
      ss := false;
      unackedPkts := map[];
      unackedRtt := new Ewma(1.0);
      rttSample := new RttWin();
      reduceOnLoss := new LossReduce();
      operationType := DEFAULT;
      cwnd, intersend := 2.0, 0.0;
      acked, lost, pacedRtt := {}, {}, 0.0;
      new;
      BootCore(utilityType, doSs, delta);
    }

    method SetTs(ts: real)
      requires Valid()
      modifies `currTs
      ensures Valid() && Model() == old(Model()).SetTs(ts)
    {
      currTs := ts;
    }

    method Initialize()
      requires Valid()
      modifies Repr()
      ensures Valid() && Model() == old(Model()).Initialize()
    {
      hide RttWin.Valid, RttModel.Valid, LossReduce.Valid, SlidingWindow.Window.Value, Pace, RttModel.Cleared;
      assert Model().Initialize().Core() by { InitializedCore(Model()); }
      ResetFields();
      rttSample.Clear();
      reduceOnLoss.Clear();
    }

    /** The part of `initialize` that resets fields, in no other object than the EWMA. */
    method ResetFields()
      modifies this, unackedRtt
      ensures Steer() == SteerModel(doSs, true, NPROBE as real, 1.0, 1, 1, 0.0)
      ensures Delta() == DeltaModel(utilityType, DEFAULT, if utilityType == CONSTANT then 1.0 else old(delta), 0.0, 0.0)
      ensures intersend == 0.0 && currIntersend == 0.0 && rttMin == DOUBLE_MAX && pacedRtt == 0.0
      ensures unackedPkts == map[] && nack == 0 && nlost == 0 && nsent == 0
      ensures lastIntersend == 0.0 && lastRtt == 0.0 && lastRttUpdateTs == 0.0
      ensures acked == {} && lost == {} && currTs == old(currTs) && unackedRtt.e == 0.0
    {
      ResetWindow();
      ResetDelta();
      ResetBooks();
      unackedRtt.Clear();
    }

    /** The window part of `initialize`. */
    method ResetWindow()
      modifies `intersend, `cwnd, `rttMin, `currIntersend, `lastUpdateTs, `updateDir, `lastUpdateDir,
               `updateAmt, `ss, `pacedRtt
      ensures Steer() == SteerModel(doSs, true, NPROBE as real, 1.0, 1, 1, 0.0)
      ensures intersend == 0.0 && currIntersend == 0.0 && rttMin == DOUBLE_MAX && pacedRtt == 0.0
    {
      intersend, cwnd, rttMin := 0.0, NPROBE as real, DOUBLE_MAX;
      currIntersend := 0.0;
      lastUpdateTs := 0.0;
      updateDir, lastUpdateDir, updateAmt := 1, 1, 1.0;
      ss := true;
      pacedRtt := 0.0;
    }

    /** The delta part of `initialize`. */
    method ResetDelta()
      modifies `delta, `operationType, `lastDeltaUpdateTs, `lastDeltaLossUpdateTs
      ensures Delta() == DeltaModel(utilityType, DEFAULT, if utilityType == CONSTANT then 1.0 else old(delta), 0.0, 0.0)
    {
      if utilityType == CONSTANT {
        delta := 1.0;
      }
      operationType := DEFAULT;
      lastDeltaUpdateTs, lastDeltaLossUpdateTs := 0.0, 0.0;
    }

    /** The packet-accounting part of `initialize`. */
    method ResetBooks()
      modifies `unackedPkts, `nack, `nlost, `nsent, `lastIntersend, `lastRtt, `lastRttUpdateTs, `acked, `lost
      ensures unackedPkts == map[] && nack == 0 && nlost == 0 && nsent == 0
      ensures lastIntersend == 0.0 && lastRtt == 0.0 && lastRttUpdateTs == 0.0
      ensures acked == {} && lost == {}
    {
      unackedPkts := map[];
      lastIntersend, lastRtt, lastRttUpdateTs := 0.0, 0.0, 0.0;
      nack, nlost, nsent := 0, 0, 0;
      acked, lost := {}, {};
    }

    method OnPktSent(seqNo: int)
      requires Valid()
      modifies this, unackedRtt
      ensures Valid() && Model() == old(Model()).OnPktSent(seqNo)
    {
      hide RttWin.Valid, RttModel.Valid, LossReduce.Valid, SlidingWindow.Window.Value, Pace;
      RecordSent(seqNo);
    }

    /** The body of `on_pkt_sent`, on the fields it touches. */
    method RecordSent(seqNo: int)
      requires unackedRtt.a == 1.0
      modifies `unackedPkts, `lastIntersend, `nsent, `intersend, unackedRtt
      ensures unackedPkts == old(unackedPkts)[seqNo := Packet(currIntersend, rttSample.virginRtt.tail, currTs)]
      ensures seqNo in unackedPkts.Keys
      ensures var first := unackedPkts[Least(unackedPkts.Keys)];
        var age, rtt := currTs - first.sentTs, rttSample.virginRtt.tail;
        && unackedRtt.e == (if age > rtt then age else rtt)
        && lastIntersend == (if age > rtt then first.intersend else old(lastIntersend))
      ensures nsent == old(nsent) + 1 && intersend == currIntersend
    {
      unackedPkts := unackedPkts[seqNo := Packet(currIntersend, rttSample.virginRtt.tail, currTs)];
      unackedRtt.Set(rttSample.virginRtt.tail);
      assert seqNo in unackedPkts.Keys;
      var first := Oldest();
      if currTs - unackedPkts[first].sentTs > unackedRtt.e {
        unackedRtt.Update(currTs - unackedPkts[first].sentTs);
        lastIntersend := unackedPkts[first].intersend;
      }
      nsent := nsent + 1;
      intersend := currIntersend;
    }

    method UpdateIntersend()
      requires cwnd > 0.0 && delta > 0.0
      modifies `cwnd, `ss, `updateAmt, `updateDir, `lastUpdateDir, `lastUpdateTs,
               `currIntersend, `intersend, `pacedRtt
      ensures var rtt := rttSample.virginRtt.tail;
        if nack < 2 * NPROBE - 1 then
          && Steer() == old(Steer()) && currIntersend == old(currIntersend)
          && intersend == old(intersend) && pacedRtt == old(pacedRtt)
        else
          && Steer() == old(Steer()).Update(TargetFor(rtt, rttMin, delta), delta, rttSample.currRtt, currTs)
          && currIntersend == intersend == Pace(rtt, cwnd) && pacedRtt == rtt
    {
      hide SteerModel.Prepared, SteerModel.Stepped;
      var rtt := rttSample.virginRtt.tail;
      var qd := rtt - rttMin;
      if nack < 2 * NPROBE - 1 {
        return;
      }
      var tCwnd := if qd == 0.0 then Unbounded else Finite(rtt / (qd * delta));
      assert tCwnd == TargetFor(rtt, rttMin, delta);
      PrepareStep(tCwnd);
      StepTowards(tCwnd);
      currIntersend := 0.5 * rtt / cwnd;
      intersend := currIntersend;
      pacedRtt := rtt;
    }

    /** The first part of `update_intersend`: slow start, or the step-size rule. */
    method PrepareStep(tCwnd: Target)
      modifies `cwnd, `ss, `updateAmt, `updateDir, `lastUpdateDir, `lastUpdateTs
      ensures Steer() == old(Steer()).Prepared(tCwnd, rttSample.currRtt, currTs)
    {
      if ss {
        if doSs || tCwnd == Unbounded {
          cwnd := cwnd + 1.0;
          if !tCwnd.Above(cwnd) {
            ss := false;
          }
        }
      } else {
        if lastUpdateTs + rttSample.currRtt < currTs {
          if lastUpdateDir * updateDir > 0 {
            if updateAmt < MAX_UPDATE_AMT {
              updateAmt := updateAmt + UPDATE_AMT;
            } else {
              updateAmt := Truncate(updateAmt) as real * 2.0;
            }
          }
        } else {
          updateAmt := 1.0;
          lastUpdateDir := -lastUpdateDir;
        }
        lastUpdateTs := currTs;
        updateDir := 0;
      }
    }

    /** The second part: one step towards the target. */
    method StepTowards(tCwnd: Target)
      requires cwnd > 0.0 && delta > 0.0
      modifies `cwnd, `updateAmt, `updateDir
      ensures Steer() == old(Steer()).Stepped(tCwnd, delta)
    {
      hide StepLength;
      if updateAmt > cwnd * delta {
        updateAmt := updateAmt / 2.0;
      }
      updateAmt := Max(updateAmt, 1.0);
      if tCwnd.Above(cwnd) {
        updateDir := updateDir + 1;
        cwnd := cwnd + StepLength(updateAmt, delta, cwnd);
      } else {
        updateDir := updateDir - 1;
        cwnd := cwnd - StepLength(updateAmt, delta, cwnd);
      }
      cwnd := Max(2.0, cwnd);
    }

    method UpdateDelta(loss: bool, currRtt: real)
      requires rttSample.Valid() && Delta().Valid()
      modifies `operationType, `delta, `lastDeltaUpdateTs, `lastDeltaLossUpdateTs
      ensures Delta() == old(Delta()).Update(loss, currRtt, currTs, rttSample.model.InMode())
    {
      hide RttWin.Valid, RttModel.InMode;
      if utilityType == AUTO {
        var inMode := rttSample.ModeEyenet();
        operationType := if !inMode then LOSS else DEFAULT;
      }
      if operationType == DEFAULT && utilityType != COOP {
        if lastDeltaUpdateTs == 0.0 || lastDeltaLossUpdateTs + currRtt < currTs {
          if delta < DEFAULT_DELTA {
            delta := DEFAULT_DELTA;
          }
          delta := Min(delta, DEFAULT_DELTA);
          lastDeltaUpdateTs := currTs;
        }
      } else if operationType == LOSS || utilityType == COOP {
        if lastDeltaUpdateTs == 0.0 {
          delta := DEFAULT_DELTA;
        }
        if loss && lastDeltaLossUpdateTs + currRtt < currTs {
          delta := delta * 2.0;
          lastDeltaLossUpdateTs := currTs;
        } else {
          if lastDeltaUpdateTs + currRtt < currTs {
            delta := 1.0 / (1.0 / delta + 1.0);
            lastDeltaUpdateTs := currTs;
          }
        }
        delta := Min(delta, DEFAULT_DELTA);
      }
    }

    /** The walk of `on_ack` over the unacknowledged packets, oldest first: everything before `seqNo`
        is lost, `seqNo` is acknowledged, and each packet visited is erased. */
    method WalkUnacked(seqNo: int) returns (malformed: bool, loss: bool, reduce: bool)
      requires reduceOnLoss.Valid() && seqNo in unackedPkts
      modifies `unackedPkts, `nlost, `lastIntersend, `lastRtt, `lastRttUpdateTs, `acked, `lost, reduceOnLoss
      ensures reduceOnLoss.Valid()
      ensures malformed <==> exists k :: k in old(unackedPkts) && k < -1
      ensures var n, p := |old(Record()).LostBy(seqNo)|, old(unackedPkts)[seqNo];
        !malformed ==>
          && Record() == old(Record()).Acknowledged(seqNo)
          && LastVisited() == p
          && reduceOnLoss.model == old(reduceOnLoss.model).Losses(n, currTs, rttSample.currRtt)
          && (loss <==> n > 0)
          && (reduce <==> old(reduceOnLoss.model).LossesCut(n, currTs, rttSample.currRtt))
    {
      hide LossReduce.Valid, LossModel.Losses, LossModel.LossesCut, Walking;
      ghost var b := Record();
      ghost var gone, last, n;
      malformed, loss, reduce, gone, last, n := EraseUpTo(seqNo);
      if !malformed {
        WalkEnds(b, seqNo, unackedPkts, gone, last);
        acked, lost := acked + {seqNo}, lost + (gone - {seqNo});
      }
    }

    /** The loop of the walk: `gone` are the ids erased, `last` the id erased last and `n` the number
        of them that were lost. */
    method EraseUpTo(seqNo: int)
      returns (malformed: bool, loss: bool, reduce: bool, ghost gone: set<int>, ghost last: int, ghost n: nat)
      requires reduceOnLoss.Valid() && seqNo in unackedPkts
      modifies `unackedPkts, `nlost, `lastIntersend, `lastRtt, `lastRttUpdateTs, reduceOnLoss
      ensures reduceOnLoss.Valid() && reduceOnLoss.model == old(reduceOnLoss.model).Losses(n, currTs, rttSample.currRtt)
      ensures Walking(old(unackedPkts), seqNo, unackedPkts, gone, last)
      ensures malformed ==> exists k :: k in old(unackedPkts) && k < -1
      ensures !malformed ==> forall k | k in unackedPkts.Keys :: k > seqNo
      ensures n == Dropped(gone, seqNo) && nlost == old(nlost) + n && (loss <==> n > 0)
      ensures reduce <==> old(reduceOnLoss.model).LossesCut(n, currTs, rttSample.currRtt)
      ensures seqNo in gone ==> LastVisited() == old(unackedPkts)[seqNo]
    {
      hide LossReduce.Valid, LossModel.Update, LossModel.Cuts, LossModel.Losses, LossModel.LossesCut, Walking, Dropped;
      ghost var losses, counted, m := reduceOnLoss.model, nlost, unackedPkts;
      loss, reduce, malformed := false, false, false;
      var tmpSeq := -1;
      gone, last, n := {}, -1, 0;
      WalkStarts(m, seqNo);
      NoneDropped(seqNo);
      LossesStep(losses, 0, currTs, rttSample.currRtt);
      while exists k :: k in unackedPkts.Keys
        invariant Walking(m, seqNo, unackedPkts, gone, last) && tmpSeq == last && !malformed
        invariant n == Dropped(gone, seqNo) && nlost == counted + n && (loss <==> n > 0)
        invariant reduceOnLoss.Valid() && reduceOnLoss.model == losses.Losses(n, currTs, rttSample.currRtt)
        invariant reduce <==> losses.LossesCut(n, currTs, rttSample.currRtt)
        invariant seqNo in gone ==> LastVisited() == m[seqNo]
        decreases unackedPkts.Keys
      {
        var k := Oldest();
        WalkVisits(m, seqNo, unackedPkts, gone, tmpSeq, k);
        if tmpSeq > k {
          malformed := true;
          return;
        }
        tmpSeq := k;
        if k > seqNo {
          break;
        }
        var wasLost, cut := Visit(k, seqNo);
        loss, reduce := loss || wasLost, reduce || cut;
        LossesStep(losses, n, currTs, rttSample.currRtt);
        DroppedGrows(gone, k, seqNo);
        gone, last, n := gone + {k}, k, if wasLost then n + 1 else n;
      }
    }

    /** The first entry of the map. */
    method Oldest() returns (k: int)
      requires exists j :: j in unackedPkts.Keys
      ensures k in unackedPkts.Keys && forall j | j in unackedPkts.Keys :: k <= j
    {
      ghost var least := Least(unackedPkts.Keys);
      k :| k in unackedPkts.Keys && forall j | j in unackedPkts.Keys :: k <= j;
    }

    /** One entry of the walk: remember its packet, count it if it is lost, and erase it. */
    method Visit(k: int, seqNo: int) returns (loss: bool, cut: bool)
      requires reduceOnLoss.Valid() && k in unackedPkts && k <= seqNo
      modifies `unackedPkts, `nlost, `lastIntersend, `lastRtt, `lastRttUpdateTs, reduceOnLoss
      ensures reduceOnLoss.Valid() && unackedPkts == old(unackedPkts) - {k} && k !in unackedPkts.Keys
      ensures LastVisited() == old(unackedPkts)[k]
      ensures loss == (k < seqNo) && nlost == old(nlost) + if loss then 1 else 0
      ensures reduceOnLoss.model ==
        if loss then old(reduceOnLoss.model).Update(true, currTs, rttSample.currRtt) else old(reduceOnLoss.model)
      ensures cut == (loss && old(reduceOnLoss.model).Cuts(true, currTs, rttSample.currRtt))
    {
      hide LossReduce.Valid, LossModel.Update, LossModel.Cuts;
      var pkt := unackedPkts[k];
      lastIntersend, lastRtt, lastRttUpdateTs := pkt.intersend, pkt.rtt, pkt.sentTs;
      loss, cut := false, false;
      if k < seqNo {
        nlost := nlost + 1;
        loss := true;
        cut := reduceOnLoss.Update(true, currTs, rttSample.currRtt);
      }
      unackedPkts := unackedPkts - {k};
    }

    /** The first part of `on_ack`: take the sample and choose delta. `ordered` is the sanity check on
        the estimates. */
    method TakeSample(sendTs: real) returns (ordered: bool)
      requires rttSample.Valid() && Delta().Valid() && this !in rttSample.Repr() && rttSample.model.MayAdd(currTs)
      modifies `rttMin, `operationType, `delta, `lastDeltaUpdateTs, `lastDeltaLossUpdateTs, rttSample.Repr()
      ensures rttSample.Valid() && rttSample.model == old(rttSample.model).Add(currTs - sendTs, currTs)
      ensures rttMin == rttSample.model.minRtt.Value()
      ensures ordered <==> rttMin <= rttSample.model.virgin.Value()
      ensures Delta() == old(Delta()).Update(false, currTs - sendTs, currTs, rttSample.model.InMode())
    {
      hide RttWin.Valid, RttModel.Valid, RttModel.InMode, RttModel.Add, DeltaModel.Update;
      rttSample.Add(currTs - sendTs, currTs);
      rttMin := rttSample.minRtt.tail;
      ordered := !(rttSample.virginRtt.tail < rttMin);
      UpdateDelta(false, currTs - sendTs);
    }

    /** The middle part of `on_ack`: classify the packets the acknowledgement settles. */
    method Classify(seqNo: int) returns (malformed: bool, loss: bool, reduce: bool)
      requires reduceOnLoss.Valid()
      modifies `unackedPkts, `nlost, `lastIntersend, `lastRtt, `lastRttUpdateTs, `acked, `lost, reduceOnLoss
      ensures reduceOnLoss.Valid() && Steer() == old(Steer()) && Delta() == old(Delta())
      ensures malformed <==> seqNo in old(unackedPkts) && exists k :: k in old(unackedPkts) && k < -1
      ensures var n := |old(Record()).LostBy(seqNo)|;
        !malformed ==>
          && Record() == old(Record()).Acknowledged(seqNo)
          && LastVisited() == (if seqNo in old(unackedPkts) then old(unackedPkts)[seqNo] else old(LastVisited()))
          && reduceOnLoss.model == old(reduceOnLoss.model).Losses(n, currTs, rttSample.currRtt)
          && (loss <==> n > 0)
          && (reduce <==> old(reduceOnLoss.model).LossesCut(n, currTs, rttSample.currRtt))
    {
      hide LossReduce.Valid, LossModel.LossesCut, LossModel.Losses, Books.Acknowledged, Books.LostBy;
      if seqNo in unackedPkts {
        malformed, loss, reduce := WalkUnacked(seqNo);
      } else {
        NothingMatched(Record(), seqNo);
        LossesStep(reduceOnLoss.model, 0, currTs, rttSample.currRtt);
        malformed, loss, reduce := false, false, false;
      }
    }

    /** The cut on loss, and the pacing that follows from it. */
    method CutWindow()
      modifies `cwnd, `currIntersend, `intersend, `pacedRtt
      ensures Steer() == old(Steer()).Cut()
      ensures intersend == currIntersend == Pace(rttSample.virginRtt.tail, cwnd) && pacedRtt == rttSample.virginRtt.tail
    {
      cwnd := cwnd * 0.8;
      cwnd := Max(2.0, cwnd);
      currIntersend := 0.5 * rttSample.virginRtt.tail / cwnd;
      intersend := currIntersend;
      pacedRtt := rttSample.virginRtt.tail;
    }

    /** The last part of `on_ack`: react to the losses found, and count the acknowledgement. */
    method Settle(loss: bool, reduce: bool)
      requires rttSample.Valid() && Delta().Valid() && reduceOnLoss.Valid() && reduceOnLoss !in rttSample.Repr()
      modifies `operationType, `delta, `lastDeltaUpdateTs, `lastDeltaLossUpdateTs,
               `cwnd, `currIntersend, `intersend, `pacedRtt, `nack, reduceOnLoss
      ensures Delta() == if loss then old(Delta()).Update(true, 0.0, currTs, rttSample.model.InMode()) else old(Delta())
      ensures reduceOnLoss.Valid()
      ensures reduceOnLoss.model == old(reduceOnLoss.model).Update(false, currTs, rttSample.currRtt)
      ensures nack == old(nack) + 1
      ensures if reduce then
          && Steer() == old(Steer()).Cut()
          && intersend == currIntersend == Pace(rttSample.virginRtt.tail, cwnd) && pacedRtt == rttSample.virginRtt.tail
        else
          && Steer() == old(Steer())
          && intersend == old(intersend) && currIntersend == old(currIntersend) && pacedRtt == old(pacedRtt)
    {
      hide RttWin.Valid, LossReduce.Valid, LossModel.Update, RttModel.InMode, DeltaModel.Update, Pace;
      if loss {
        UpdateDelta(true, 0.0);
      }
      var cut := reduceOnLoss.Update(false, currTs, rttSample.currRtt);
      if reduce || cut {
        CutWindow();
      }
      nack := nack + 1;
    }

    /** The last two parts of `on_ack` together, on the fields they touch. */
    method Digest(seqNo: int) returns (malformed: bool)
      requires rttSample.Valid() && Delta().Valid() && reduceOnLoss.Valid() && reduceOnLoss !in rttSample.Repr()
      modifies `unackedPkts, `nlost, `lastIntersend, `lastRtt, `lastRttUpdateTs, `acked, `lost,
               `operationType, `delta, `lastDeltaUpdateTs, `lastDeltaLossUpdateTs,
               `cwnd, `currIntersend, `intersend, `pacedRtt, `nack, reduceOnLoss
      ensures malformed <==> seqNo in old(unackedPkts) && exists k :: k in old(unackedPkts) && k < -1
      ensures !malformed ==>
        && Record() == old(Record()).Acknowledged(seqNo) && nack == old(nack) + 1
        && LastVisited() == (if seqNo in old(unackedPkts) then old(unackedPkts)[seqNo] else old(LastVisited()))
      ensures var n := |old(Record()).LostBy(seqNo)|;
        !malformed ==>
          && reduceOnLoss.Valid()
          && reduceOnLoss.model ==
            old(reduceOnLoss.model).Losses(n, currTs, rttSample.currRtt).Update(false, currTs, rttSample.currRtt)
          && Delta() == if n > 0 then old(Delta()).Update(true, 0.0, currTs, rttSample.model.InMode()) else old(Delta())
      ensures var cut := old(reduceOnLoss.model).LossesCut(|old(Record()).LostBy(seqNo)|, currTs, rttSample.currRtt);
        !malformed ==>
          && Steer() == (if cut then old(Steer()).Cut() else old(Steer()))
          && pacedRtt == (if cut then rttSample.virginRtt.tail else old(pacedRtt))
          && currIntersend == (if cut then Pace(pacedRtt, cwnd) else old(currIntersend))
          && intersend == (if cut then currIntersend else old(intersend))
    {
      hide RttWin.Valid, RttModel.Valid, LossReduce.Valid, Pace, LossModel.LossesCut, LossModel.Losses,
           LossModel.Update, Books.Acknowledged, Books.LostBy, DeltaModel.Update, DeltaModel.Valid, RttModel.InMode,
           SteerModel.Cut;
      var loss, reduce;
      malformed, loss, reduce := Classify(seqNo);
      if !malformed {
        assert rttSample.model == old(rttSample.model);
        Settle(loss, reduce);
      }
    }

    /** Everything `on_ack` does after the window has moved. */
    method React(ack: int) returns (malformed: bool)
      requires Valid()
      modifies this, reduceOnLoss
      ensures malformed <==> ack - 1 in old(unackedPkts) && exists k :: k in old(unackedPkts) && k < -1
      ensures !malformed ==> Valid() && Model() == old(Model()).Reacted(ack)
    {
      hide RttWin.Valid, RttModel.Valid, LossReduce.Valid, SlidingWindow.Window.Value, Pace, Ctl.Core, Ctl.Reacted,
           LossModel.LossesCut, LossModel.Losses, LossModel.Update, Books.Acknowledged, Books.LostBy,
           DeltaModel.Update, RttModel.InMode, SteerModel.Cut;
      CoreIs(Model());
      ReactedCore(Model(), ack);
      ReactedIs(Model(), ack);
      malformed := Digest(ack - 1);
      ghost var m := old(Model()).Reacted(ack);
      if !malformed {
        assert rttSample.model == m.rtt && Record() == m.books;
        assert Steer() == m.steer && Delta() == m.dm && LastVisited() == m.LastVisited();
        assert Model() == m;
      }
    }

    /** The sample of `on_ack`, on the whole state. */
    method Sample(sendTs: real) returns (ordered: bool)
      requires Valid() && Model().Clocked() && sendTs <= currTs
      modifies this, rttSample.Repr()
      ensures ordered && Valid() && Model() == old(Model()).Sampled(sendTs)
      ensures unackedPkts == old(unackedPkts)
    {
      hide RttWin.Valid, RttModel.Valid, RttModel.Add, LossReduce.Valid, SlidingWindow.Window.Value, Pace, Ctl.Core,
           DeltaModel.Update, RttModel.InMode, Ctl.Sampled;
      CoreIs(Model());
      SampledIs(Model(), sendTs);
      ordered := TakeSample(sendTs);
      assert Model() == old(Model()).Sampled(sendTs);
    }

    /** The move of the window in `on_ack`, on the whole state. */
    method MoveWindow()
      requires Valid() && Delta().Settled()
      modifies `cwnd, `ss, `updateAmt, `updateDir, `lastUpdateDir, `lastUpdateTs, `currIntersend, `intersend, `pacedRtt
      ensures Valid() && Model() == old(Model()).Steered()
    {
      hide RttWin.Valid, RttModel.Valid, LossReduce.Valid, SlidingWindow.Window.Value, Pace, Ctl.Core,
           SteerModel.Update;
      CoreIs(Model());
      SteeredIs(Model());
      UpdateIntersend();
    }

    /** Everything `on_ack` does before it looks at the unacknowledged packets. */
    method SampleAndSteer(sendTs: real) returns (ordered: bool)
      requires Valid() && Model().Clocked() && sendTs <= currTs
      modifies this, rttSample.Repr()
      ensures ordered && Valid() && Model() == old(Model()).Sampled(sendTs).Steered()
      ensures unackedPkts == old(unackedPkts)
    {
      hide Valid, Ctl.Sampled, Ctl.Steered;
      ordered := Sample(sendTs);
      if ordered {
        MoveWindow();
      }
    }

    /** `recv_ts` is not used by the source. Of the three aborts the postcondition leaves two possible,
        and neither is in a state a transport can reach. */
    method OnAck(ack: int, sendTs: real) returns (r: Outcome)
      requires Valid() && Model().Clocked()
      modifies Repr()
      ensures r == SendTimeInFuture <==> old(currTs) < sendTs
      ensures r != RttBelowMinimum
      ensures r == MalformedUnacked <==>
        sendTs <= old(currTs) && ack - 1 in old(unackedPkts) && exists k :: k in old(unackedPkts) && k < -1
      ensures r == Done ==> Valid() && Model() == old(Model()).OnAck(ack, sendTs)
    {
      hide RttWin.Valid, Valid, Ctl.Core, Ctl.Sampled, Ctl.Steered, Ctl.Reacted;
      if currTs < sendTs {
        return SendTimeInFuture;
      }
      var ordered := SampleAndSteer(sendTs);
      if !ordered {
        return RttBelowMinimum;
      }
      var malformed := React(ack);
      return if malformed then MalformedUnacked else Done;
    }
  }
}
