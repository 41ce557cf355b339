/** The paced, windowed sender loop `tcp_transport<T>::send_data` (vns/vns_transport.hh:144-270) with
    the Eyenet controller plugged in, the only controller the program instantiates it with: every method
    takes the steps that `SenderRuns` says. */
module Transport {
  import opened Doubles
  import opened Controller
  import opened ControllerRuns
  import opened ControllerTheorems
  import opened Eyenet
  import opened PacingLog
  import opened SenderRuns
  import opened Division

  datatype Reception = Nothing | Received(h: Header)

  /** The clock and the network: time passes as it likes but not backwards, and what arrives is either
      an echo of a packet of this flow, any number of times and in any order, or somebody else's. */
  class Network {
    var now: real
    var traffic: seq<Traffic>     // of this flow
    ghost var past: seq<Traffic>  // of the flows before it

    constructor ()
      ensures now == 0.0 && traffic == past == []
    {
      now, traffic, past := 0.0, [], [];
    }

    /** The clock of a new flow. */
    method Start()
      modifies this
      ensures now >= 0.0 && traffic == [] && past == old(past + traffic)
    {
      var t: real := *;
      past := past + traffic;
      now, traffic := Max(0.0, t), [];
    }

    method Clock() returns (t: real)
      modifies `now, `traffic
      ensures t == now >= old(now) && traffic == old(traffic) + [Read(t)]
    {
      var later: real := *;
      now := Max(now, later);
      t := now;
      traffic := traffic + [Read(t)];
    }

    method Send(h: Header)
      modifies `traffic
      ensures traffic == old(traffic) + [Sent(h)]
    {
      traffic := traffic + [Sent(h)];
    }

    predicate Possible(h: Header, fid: int, sid: int)
      reads `traffic
    {
      h.fid == fid && h.sid == sid ==> Sent(h.(recvTs := 0.0)) in traffic
    }

    method Recv(fid: int, sid: int) returns (r: Reception)
      modifies `traffic
      ensures r.Received? ==> old(Possible(r.h, fid, sid))
      ensures traffic == old(traffic) + [if r.Received? then Got(r.h) else Silence]
    {
      var h: Header := *;
      r := if Possible(h, fid, sid) then Received(h) else Nothing;
      traffic := traffic + [if r.Received? then Got(r.h) else Silence];
    }
  }

  // ---------------------------------------------------------------- the traffic of a run

  /** The traffic of a run so far: the two clock readings before the loop, and what the loop did. */
  function Wire(tr: Trace, f: Flow): seq<Traffic>
    requires |tr.states| == |tr.steps| + 1
  {
    [Read(tr.states[0].lastSTs), Read(tr.states[0].now)] + TrafficOf(tr, f)
  }

  lemma WireGrows(tr: Trace, e: Happening, f: Flow)
    requires tr.IsRun(f) && tr.Last().May(e, f)
    ensures tr.More(e, f).IsRun(f) && tr.More(e, f).Last() == tr.Last().Do(e, f)
    ensures Wire(tr.More(e, f), f) == Wire(tr, f) + StepTraffic(tr.Last(), e, f)
  {
    hide Trace.IsRun, Sender.Do, Sender.May;
    RunGoesOn(tr, e, f);
    MoreTraffic(tr, e, f);
    assert tr.More(e, f).states[0] == tr.states[0] by { StatesOf(tr, f); }
  }

  lemma StatesOf(tr: Trace, f: Flow)
    requires tr.IsRun(f)
    ensures |tr.states| == |tr.steps| + 1 && tr.Last().Sound(f)
  {
    hide Sender.Sound;
  }

  /** An echo is of a packet sent before, with the time it went out at. */
  lemma EchoIsOfSent(tr: Trace, f: Flow, h: Header)
    requires tr.IsRun(f) && Sent(h.(recvTs := 0.0)) in Wire(tr, f)
    ensures 0 <= h.seqNum < |tr.Last().sent| && h.sendTs == tr.Last().sent[h.seqNum]
  {
    hide Trace.IsRun, TrafficOf;
    StatesOf(tr, f);
    SentIsWire(tr, f);
    assert Sent(h.(recvTs := 0.0)) in TrafficOf(tr, f);
    PacketIsThere(TrafficOf(tr, f), h.(recvTs := 0.0));
  }

  lemma SentBefore(tr: Trace, f: Flow, h: Header)
    requires tr.IsRun(f) && 0 <= h.seqNum < |tr.Last().sent| && h.sendTs == tr.Last().sent[h.seqNum]
    ensures |tr.states| == |tr.steps| + 1 && Inv(tr.Last().ctl)
    ensures h.sendTs <= tr.Last().now && tr.Last().ctl.currTs <= tr.Last().now
  {
    hide Inv;
  }

  /** The run goes on by one step. */
  ghost predicate Took(tr: Trace, e: Happening, f: Flow, tr': Trace) {
    tr.IsRun(f) && tr.Last().May(e, f) && tr' == tr.More(e, f)
  }

  /** The run has gone on. */
  ghost predicate Extends(tr0: Trace, tr: Trace) {
    tr0.states <= tr.states && tr0.steps <= tr.steps
  }

  lemma TookOne(tr: Trace, e: Happening, f: Flow, tr': Trace)
    requires Took(tr, e, f, tr')
    ensures Extends(tr, tr') && Looks(tr'.steps) == Looks(tr.steps) + if e.Look? then 1 else 0
  {
    OneMoreLook(tr.steps, e);
  }

  /** The steps from `n` on each send one packet. */
  ghost predicate SendsFrom(tr: Trace, n: nat) {
    forall i | n <= i < |tr.steps| :: tr.steps[i] == Out
  }

  lemma OutStays(tr: Trace, f: Flow)
    requires tr.IsRun(f) && tr.Last().May(Out, f)
    ensures tr.More(Out, f).Last().Room() == tr.Last().Room() && |tr.Last().sent| < Limit(tr.Last().Room(), f.bn)
  {
    hide Sender.Sound, Sender.May, Sender.Do, Limit;
    OutKeeps(tr.Last(), f);
  }

  class TcpTransport {
    const cong: Eyenet
    const bnTrain: int
    const net: Network
    var lastSTs: real
    var lastRTs: real
    var lastAckTs: real
    var delayAggr: real
    var transTimeAggr: real
    var largestAck: int
    var npkts: int
    var nbytes: int
    ghost var trace: Trace  // the current run of the loop

    ghost function Repr(): set<object> {
      {this, net} + cong.Repr()
    }

    ghost predicate Valid()
      reads cong.Repr()
    {
      cong.Valid() && bnTrain >= 1 && {this, net} !! cong.Repr()
    }

    ghost function Statistics(): Stats
      reads `npkts, `nbytes, `delayAggr
    {
      Stats(npkts, nbytes, delayAggr)
    }

    /** The run so far ends in the state the object is in. */
    ghost predicate Tracks(f: Flow, pc: Pc, seqNum: int, currTs: real)
      reads cong.Repr(), net`now, `trace, `largestAck, `lastSTs, `lastAckTs, `npkts, `nbytes,
            `delayAggr
    {
      && Valid() && f.bn == bnTrain && trace.IsRun(f) && currTs == net.now
      && var s := trace.Last();
        && |s.sent| == seqNum
        && s == Sender(pc, cong.Model(), s.sent, largestAck, lastSTs, lastAckTs, Statistics(), currTs)
    }

    /** And its traffic is what has passed through the network. */
    ghost predicate At(f: Flow, pc: Pc, seqNum: int, currTs: real)
      reads cong.Repr(), net`now, net`traffic, `trace, `largestAck, `lastSTs, `lastAckTs, `npkts, `nbytes,
            `delayAggr
    {
      Tracks(f, pc, seqNum, currTs) && net.traffic == Wire(trace, f)
    }

    constructor (cong: Eyenet, bnTrain: int, net: Network)
      requires cong.Valid() && bnTrain >= 1 && net !in cong.Repr()
      ensures Valid() && this.cong == cong && this.bnTrain == bnTrain && this.net == net
      ensures npkts == 0 && nbytes == 0 && largestAck == NEG
    {
      this.cong, this.bnTrain, this.net := cong, bnTrain, net;
      trace := Trace([], []);
      lastSTs, lastRTs, lastAckTs, delayAggr, transTimeAggr := 0.0, 0.0, 0.0, 0.0, 0.0;
      largestAck, npkts, nbytes := NEG, 0, 0;
    }

    // ---------------------------------------------------------------- the controller, as the loop uses it

    method Restart(ts: real)
      requires Valid()
      modifies cong.Repr()
      ensures Valid() && cong.Model() == Reset(old(cong.Model()), ts)
    {
      hide Eyenet.Valid, Ctl.Initialize;
      cong.SetTs(ts);
      cong.Initialize();
    }

    /** `set_ts` and `on_pkt_sent`. */
    method NotifySent(ts: real, id: int)
      requires Valid() && Inv(cong.Model())
      modifies cong.Repr()
      ensures Valid() && cong.Model() == Opened(old(cong.Model()), ts, id)
    {
      hide Eyenet.Valid, Inv, Ctl.OnPktSent;
      CoreOf(cong.Model());
      CoreIs(cong.Model());
      cong.SetTs(ts);
      cong.OnPktSent(id);
    }

    /** `set_ts` and `on_ack`, for an echo of a packet sent by now; it never aborts. */
    method NotifyAck(ts: real, ack: int, sendTs: real)
      requires Valid() && Inv(cong.Model()) && cong.currTs <= ts && sendTs <= ts
      modifies cong.Repr()
      ensures Valid() && cong.Model() == Hears(old(cong.Model()), ts, ack, sendTs)
    {
      hide Eyenet.Valid, Inv, Ctl.Core, Ctl.OnAck;
      ghost var c := cong.Model();
      TickKeeps(c, ts);
      CoreOf(c.SetTs(ts));
      AbortsUnreachable(c.SetTs(ts), sendTs);
      cong.SetTs(ts);
      var r := cong.OnAck(ack, sendTs);
      assert r == Done;
    }

    // ---------------------------------------------------------------- the loop

    /** The top of a turn: read the clock, and start over after two seconds without an echo. */
    method CheckTimeout(f: Flow, seqNum: int, ghost before: real) returns (currTs: real)
      requires At(f, Top, seqNum, before) && f.Unfinished(npkts, before)
      modifies `largestAck, `lastSTs, `lastAckTs, net`now, net`traffic, cong.Repr(), `trace
      ensures At(f, Sending, seqNum, currTs)
      ensures Took(old(trace), Look(currTs), f, trace)
    {
      hide Eyenet.Valid, Eyenet.Model, Inv, Reset, Trace.IsRun, Wire, Sender.Sound;
      currTs := net.Clock();
      StatesOf(trace, f);
      WireGrows(trace, Look(currTs), f);
      if currTs - lastAckTs > 2000.0 {
        GiveUp(currTs, seqNum);
      }
      trace := trace.More(Look(currTs), f);
    }

    /** The controller starts over, and everything sent so far counts as acknowledged. */
    method GiveUp(currTs: real, seqNum: int)
      requires Valid()
      modifies `largestAck, `lastSTs, `lastAckTs, cong.Repr()
      ensures Valid() && cong.Model() == Reset(old(cong.Model()), currTs)
      ensures largestAck == seqNum - 1 && lastSTs == lastAckTs == currTs
    {
      hide Eyenet.Valid, Eyenet.Model, Reset;
      Restart(currTs);
      largestAck := seqNum - 1;
      lastSTs := currTs;
      lastAckTs := currTs;
    }

    /** One turn of the inner loop: a packet goes out, the pacing clock is charged, and the controller
        hears of the first packet of every train. */
    method SendOne(f: Flow, seqNum: int, currTs: real)
      requires At(f, Sending, seqNum, currTs) && trace.Last().MaySend(bnTrain)
      modifies `lastSTs, cong.Repr(), net`traffic, `trace
      ensures At(f, Sending, seqNum + 1, currTs)
      ensures Took(old(trace), Out, f, trace)
    {
      hide Eyenet.Valid, Inv, Opened, Trace.IsRun, Wire, Phase;
      StatesOf(trace, f);
      WireGrows(trace, Out, f);
      assert cong.intersend == trace.Last().ctl.intersend;
      var hdr := Header(seqNum, f.fid, f.sid, currTs, 0.0);
      net.Send(hdr);
      lastSTs := lastSTs + cong.intersend;
      if Phase(seqNum, bnTrain) == 0 {
        NotifySent(currTs, hdr.seqNum / bnTrain);
      }
      trace := trace.More(Out, f);
    }

    /** The condition of the inner loop, on the fields and on the run. */
    lemma ConditionIs(f: Flow, seqNum: int, currTs: real)
      requires At(f, Sending, seqNum, currTs)
      ensures f.bn == bnTrain >= 1 && trace.IsRun(f) && 0 <= seqNum == |trace.Last().sent|
      ensures |trace.states| == |trace.steps| + 1 && trace.Last().pc == Sending
      ensures trace.Last().MaySend(bnTrain) <==>
        || (seqNum as real < largestAck as real + cong.cwnd + 1.0
            && lastSTs + Charge(bnTrain, cong.intersend) <= currTs)
        || Phase(seqNum, bnTrain) != 0
    {
      hide Eyenet.Valid, Inv, Phase, Charge, Sender.Sound;
    }

    /** The inner loop: trains go out while the window has room and the pacing clock allows. It
        terminates whatever the pacing interval is, and never stops inside a train. */
    method SendWindow(f: Flow, first: int, currTs: real) returns (seqNum: int)
      requires At(f, Sending, first, currTs)
      modifies `lastSTs, cong.Repr(), net`traffic, `trace
      ensures At(f, Sending, seqNum, currTs) && !trace.Last().MaySend(bnTrain)
      ensures Extends(old(trace), trace) && SendsFrom(trace, |old(trace).steps|)
      ensures Looks(trace.steps) == Looks(old(trace).steps)
    {
      hide Eyenet.Valid, Inv, Phase, Charge, At, Sender.MaySend, Limit, Trace.IsRun, Sender.Do, Looks;
      seqNum := first;
      ConditionIs(f, seqNum, currTs);
      ghost var room := trace.Last().Room();
      while (seqNum as real < largestAck as real + cong.cwnd + 1.0
             && lastSTs + Charge(bnTrain, cong.intersend) <= currTs)
            || Phase(seqNum, bnTrain) != 0
        invariant At(f, Sending, seqNum, currTs) && trace.states != [] && trace.Last().Room() == room
        invariant Extends(old(trace), trace) && SendsFrom(trace, |old(trace).steps|)
        invariant Looks(trace.steps) == Looks(old(trace).steps)
        decreases Limit(room, bnTrain) - seqNum
      {
        ConditionIs(f, seqNum, currTs);
        OutStays(trace, f);
        OneMoreLook(trace.steps, Out);
        SendOne(f, seqNum, currTs);
        seqNum := seqNum + 1;
      }
      ConditionIs(f, seqNum, currTs);
    }

    /** The middle of a turn: send what may be sent, then bring the pacing clock up to date. */
    method SendPhase(f: Flow, first: int, currTs: real) returns (seqNum: int)
      requires At(f, Sending, first, currTs)
      modifies `lastSTs, cong.Repr(), net`traffic, `trace
      ensures At(f, Waiting, seqNum, currTs)
      ensures Extends(old(trace), trace) && Looks(trace.steps) == Looks(old(trace).steps)
      ensures var n := |trace.steps| - 1;
        n >= |old(trace).steps| && trace.steps[n] == Settle && SendsFrom(trace.Before(n), |old(trace).steps|)
    {
      hide Eyenet.Valid, Inv, Wire, Sender.Sound, Looks;
      seqNum := SendWindow(f, first, currTs);
      WireGrows(trace, Settle, f);
      OneMoreLook(trace.steps, Settle);
      if currTs - lastSTs >= Charge(bnTrain, cong.intersend) || seqNum as real >= largestAck as real + cong.cwnd {
        lastSTs := currTs;
      }
      trace := trace.More(Settle, f);
    }

    /** The clock is read once more before the wait. */
    method Pause(f: Flow, seqNum: int, ghost before: real) returns (currTs: real)
      requires At(f, Waiting, seqNum, before)
      modifies net`now, net`traffic, `trace
      ensures At(f, Polling, seqNum, currTs)
      ensures Took(old(trace), Wait(currTs), f, trace)
    {
      hide Eyenet.Valid, Eyenet.Model, Inv, Trace.IsRun, Wire;
      StatesOf(trace, f);
      currTs := net.Clock();
      WireGrows(trace, Wait(currTs), f);
      trace := trace.More(Wait(currTs), f);
    }

    /** Nothing has arrived. */
    method OnTimeout(f: Flow, seqNum: int, ghost before: real) returns (currTs: real)
      requires Tracks(f, Polling, seqNum, before) && net.traffic == Wire(trace, f) + [Silence]
      modifies net`now, net`traffic, `trace
      ensures At(f, Top, seqNum, currTs)
      ensures Took(old(trace), Idle(currTs), f, trace)
    {
      hide Eyenet.Valid, Eyenet.Model, Inv, Trace.IsRun, Wire;
      StatesOf(trace, f);
      currTs := net.Clock();
      WireGrows(trace, Idle(currTs), f);
      trace := trace.More(Idle(currTs), f);
    }

    /** Something of another flow has arrived. */
    ghost method OnForeign(f: Flow, h: Header, seqNum: int, currTs: real)
      requires Tracks(f, Polling, seqNum, currTs) && net.traffic == Wire(trace, f) + [Got(h)] && !f.Owns(h)
      modifies `trace
      ensures At(f, Top, seqNum, currTs)
      ensures Took(old(trace), Foreign(h), f, trace)
    {
      hide Eyenet.Valid, Eyenet.Model, Inv, Trace.IsRun, Wire;
      StatesOf(trace, f);
      WireGrows(trace, Foreign(h), f);
      trace := trace.More(Foreign(h), f);
    }

    /** The ack arm of the loop: an echo of packet `h.seqNum` of this flow has arrived; `told` says
        whether the controller hears of it. */
    method OnEcho(f: Flow, h: Header, seqNum: int, ghost before: real) returns (currTs: real, told: bool)
      requires Tracks(f, Polling, seqNum, before) && net.traffic == Wire(trace, f) + [Got(h)] && f.Owns(h)
      requires 0 <= h.seqNum < |trace.Last().sent| && h.sendTs == trace.Last().sent[h.seqNum]
      modifies `lastAckTs, `lastRTs, `delayAggr, `nbytes, `npkts, `largestAck, net`now, net`traffic, cong.Repr(), `trace
      ensures At(f, Top, seqNum, currTs)
      ensures Took(old(trace), In(h, currTs, told), f, trace)
    {
      hide Eyenet.Valid, Eyenet.Model, Inv, Hears, Stats.Plus, Trace.IsRun, Wire, Sender.Sound;
      SentBefore(trace, f, h);
      currTs := net.Clock();
      told := Absorb(f, h, currTs);
      WireGrows(trace, In(h, currTs, told), f);
      trace := trace.More(In(h, currTs, told), f);
    }

    /** What an echo changes. */
    method Absorb(f: Flow, h: Header, currTs: real) returns (told: bool)
      requires Valid() && Inv(cong.Model()) && cong.Model().currTs <= currTs && h.sendTs <= currTs && f.bn == bnTrain
      modifies `lastAckTs, `lastRTs, `delayAggr, `nbytes, `npkts, `largestAck, cong.Repr()
      ensures Valid() && f.Allows(told, h.seqNum)
      ensures cong.Model() ==
        if told then Hears(old(cong.Model()), currTs, (h.seqNum + 1) / bnTrain, h.sendTs) else old(cong.Model())
      ensures Statistics() == old(Statistics()).Plus(currTs - h.sendTs) && lastAckTs == lastRTs == currTs
      ensures largestAck == if old(largestAck) < h.seqNum + 1 then h.seqNum + 1 else old(largestAck)
    {
      hide Eyenet.Valid, Eyenet.Model, Inv, Hears, Stats.Plus;
      Tally(currTs, h);
      told := TellOfEcho(f, h, currTs);
      if largestAck < h.seqNum + 1 {
        largestAck := h.seqNum + 1;
      }
    }

    /** The controller is told of the echo, if the guard says so. */
    method TellOfEcho(f: Flow, h: Header, currTs: real) returns (told: bool)
      requires Valid() && Inv(cong.Model()) && cong.Model().currTs <= currTs && h.sendTs <= currTs && f.bn == bnTrain
      modifies cong.Repr()
      ensures Valid() && f.Allows(told, h.seqNum)
      ensures cong.Model() ==
        if told then Hears(old(cong.Model()), currTs, (h.seqNum + 1) / bnTrain, h.sendTs) else old(cong.Model())
    {
      hide Eyenet.Valid, Inv, Hears;
      var ackSeqNum := h.seqNum + 1;
      told := *;
      if f.guard.Formula? {
        told := f.guard.holds(ackSeqNum, bnTrain);
      }
      if told {
        NotifyAck(currTs, ackSeqNum / bnTrain, h.sendTs);
      }
    }

    /** The statistics of an echo. */
    method Tally(currTs: real, h: Header)
      modifies `lastAckTs, `lastRTs, `delayAggr, `nbytes, `npkts
      ensures Statistics() == old(Statistics()).Plus(currTs - h.sendTs) && lastAckTs == lastRTs == currTs
    {
      lastAckTs := currTs;
      lastRTs := currTs;
      delayAggr := delayAggr + (currTs - h.sendTs);
      nbytes := nbytes + PAYLOAD;
      npkts := npkts + 1;
    }

    /** What has arrived is ignored unless it is an echo of this flow. */
    method Digest(f: Flow, r: Reception, seqNum: int, before: real) returns (currTs: real)
      requires Tracks(f, Polling, seqNum, before)
      requires net.traffic == Wire(trace, f) + [if r.Received? then Got(r.h) else Silence]
      requires r.Received? && f.Owns(r.h) ==> Sent(r.h.(recvTs := 0.0)) in Wire(trace, f)
      modifies `lastAckTs, `lastRTs, `delayAggr, `nbytes, `npkts, `largestAck, net`now, net`traffic, cong.Repr(), `trace
      ensures At(f, Top, seqNum, currTs)
      ensures Extends(old(trace), trace) && Looks(trace.steps) == Looks(old(trace).steps)
    {
      hide Valid, Wire, At, Looks, Extends, Took, Trace.IsRun;
      ghost var tr := trace;
      currTs := before;
      if r.Nothing? {
        currTs := OnTimeout(f, seqNum, before);
        TookOne(tr, Idle(currTs), f, trace);
      } else if !f.Owns(r.h) {
        OnForeign(f, r.h, seqNum, before);
        TookOne(tr, Foreign(r.h), f, trace);
      } else {
        EchoIsOfSent(trace, f, r.h);
        var told;
        currTs, told := OnEcho(f, r.h, seqNum, before);
        TookOne(tr, In(r.h, currTs, told), f, trace);
      }
    }

    /** The bottom of a turn. */
    method ReceivePhase(f: Flow, seqNum: int, ghost before: real) returns (currTs: real)
      requires At(f, Waiting, seqNum, before)
      modifies `lastAckTs, `lastRTs, `delayAggr, `nbytes, `npkts, `largestAck, net`now, net`traffic, cong.Repr(), `trace
      ensures At(f, Top, seqNum, currTs)
      ensures Extends(old(trace), trace) && Looks(trace.steps) == Looks(old(trace).steps)
    {
      hide Valid, Wire, Looks, Took, Trace.IsRun;
      currTs := Pause(f, seqNum, before);
      TookOne(old(trace), Wait(currTs), f, trace);
      var r := net.Recv(f.fid, f.sid);
      currTs := Digest(f, r, seqNum, currTs);
    }

    /** One turn of the outer loop. */
    method Turn(f: Flow, first: int, ghost before: real) returns (seqNum: int, currTs: real)
      requires At(f, Top, first, before) && f.Unfinished(npkts, before)
      modifies this, net`now, net`traffic, cong.Repr()
      ensures At(f, Top, seqNum, currTs)
      ensures Extends(old(trace), trace) && Looks(trace.steps) == Looks(old(trace).steps) + 1
      ensures transTimeAggr == old(transTimeAggr)
    {
      hide Valid, Tracks, At, Looks, Took;
      currTs := CheckTimeout(f, first, before);
      TookOne(old(trace), Look(currTs), f, trace);
      seqNum := SendPhase(f, first, currTs);
      currTs := ReceivePhase(f, seqNum, currTs);
    }

    /** The clock starts, and nothing has been sent or acknowledged. */
    method OpenFlow() returns (currTs: real)
      modifies `largestAck, `lastSTs, `lastAckTs, net
      ensures 0.0 <= lastSTs == lastAckTs <= currTs == net.now && largestAck == NEG
      ensures net.traffic == [Read(lastSTs), Read(currTs)] && net.past == old(net.past + net.traffic)
    {
      largestAck := NEG;
      net.Start();
      currTs := net.Clock();
      lastSTs := currTs;
      lastAckTs := currTs;
      currTs := net.Clock();
    }

    /** The start of a run; the handshake before it is not modelled. */
    method Begin(f: Flow) returns (currTs: real)
      requires Valid() && f.bn == bnTrain
      modifies Repr()
      ensures At(f, Top, 0, currTs) && trace.steps == [] && |trace.states| == 1
      ensures transTimeAggr == old(transTimeAggr)
      ensures trace.states[0].stats == old(Statistics()) && net.past == old(net.past + net.traffic)
      ensures trace.states[0].ctl == Reset(old(cong.Model()), currTs) && currTs == trace.states[0].now
    {
      hide Eyenet.Valid, Inv, Reset, Trace.IsRun;
      cong.CoreOfModel();
      currTs := OpenFlow();
      ResetIs(cong.Model(), currTs);
      Restart(currTs);
      ghost var s := Sender(Top, cong.Model(), [], largestAck, lastSTs, lastAckTs, Statistics(), currTs);
      RunBegins(s, f);
      trace := Trace([s], []);
    }

    /** The outer loop: it ends when enough bytes are acknowledged or enough time has passed. */
    method Turns(f: Flow, rounds: nat, before: real) returns (seqNum: int, currTs: real)
      requires At(f, Top, 0, before) && trace.steps == []
      modifies this, net`now, net`traffic, cong.Repr()
      ensures At(f, Top, seqNum, currTs) && old(trace).states <= trace.states
      ensures transTimeAggr == old(transTimeAggr)
      ensures Looks(trace.steps) == rounds || (Looks(trace.steps) < rounds && !f.Unfinished(npkts, currTs))
    {
      hide Valid, Tracks, At, Flow.Unfinished;
      seqNum, currTs := 0, before;
      var round := 0;
      while round < rounds && f.Unfinished(npkts, currTs)
        invariant At(f, Top, seqNum, currTs) && old(trace).states <= trace.states
        invariant transTimeAggr == old(transTimeAggr)
        invariant Looks(trace.steps) == round <= rounds
        decreases rounds - round
      {
        seqNum, currTs := Turn(f, seqNum, currTs);
        round := round + 1;
      }
    }

    /** The end of a run; `close` does nothing. */
    method Close()
      requires Valid()
      modifies `transTimeAggr, net`now, net`traffic, cong`currTs
      ensures Valid() && net.now >= old(net.now) && net.traffic == old(net.traffic) + [Read(net.now)]
      ensures cong.Model() == old(cong.Model()).SetTs(net.now) && transTimeAggr == old(transTimeAggr) + net.now
    {
      hide Eyenet.Valid;
      var currTs := net.Clock();
      cong.SetTs(currTs);
      transTimeAggr := transTimeAggr + currTs;
    }

    /** A call is over after `rounds` turns or when enough is acknowledged or enough time has passed. What has
        passed through the network is, in order and to the last clock reading, what its run says, and the
        object is where the run has ended. */
    ghost predicate Ended(f: Flow, seqNum: int, rounds: nat)
      reads cong.Repr(), net`now, net`traffic, `trace, `largestAck, `lastSTs, `lastAckTs, `npkts, `nbytes,
            `delayAggr
    {
      && Valid() && trace.IsRun(f) && net.traffic == Wire(trace, f) + [Read(net.now)]
      && var s := trace.Last();
        && |s.sent| == seqNum && s.now <= net.now
        && s == Sender(Top, s.ctl, s.sent, largestAck, lastSTs, lastAckTs, Statistics(), s.now)
        && cong.Model() == s.ctl.SetTs(net.now)
        && (Looks(trace.steps) == rounds
            || (Looks(trace.steps) < rounds && f.fsz <= if f.byteSwitcher then (1408 * npkts) as real else s.now))
    }

    /** One whole call, cut off after `rounds` turns of the outer loop, for any guard of the ack arm. */
    method SendData(fsz: real, byteSwitcher: bool, fid: int, sid: int, guard: AckGuard, rounds: nat)
      returns (seqNum: int)
      requires Valid()
      modifies Repr()
      ensures Ended(Flow(bnTrain, fid, sid, fsz, byteSwitcher, guard), seqNum, rounds)
      ensures net.past == old(net.past + net.traffic)
      ensures trace.states != [] && trace.states[0].stats == old(Statistics())
      ensures trace.states[0].ctl == Reset(old(cong.Model()), trace.states[0].now)
      ensures transTimeAggr == old(transTimeAggr) + net.now
    {
      hide Eyenet.Valid, Eyenet.Model, Reset, Trace.IsRun, Wire, Looks;
      var f := Flow(bnTrain, fid, sid, fsz, byteSwitcher, guard);
      var currTs := Begin(f);
      seqNum, currTs := Turns(f, rounds, currTs);
      Close();
    }

    /** The call with the guard as the source writes it. No echo ever reaches the controller, so the window
        stays at its initial ten packets and nothing is paced. */
    method SendDataAsWritten(fsz: real, byteSwitcher: bool, fid: int, sid: int, rounds: nat) returns (seqNum: int)
      requires Valid()
      modifies Repr()
      ensures Ended(Flow(bnTrain, fid, sid, fsz, byteSwitcher, Formula(GuardAsWritten)), seqNum, rounds)
      ensures net.past == old(net.past + net.traffic)
      ensures forall s | s in trace.states :: s.Untouched()
    {
      hide Eyenet.Valid, Trace.IsRun, Wire, Looks, Flow.Unfinished, GuardAsWritten, Sender.Untouched;
      seqNum := SendData(fsz, byteSwitcher, fid, sid, Formula(GuardAsWritten), rounds);
      StaysUntouchedAsWritten(trace, Flow(bnTrain, fid, sid, fsz, byteSwitcher, Formula(GuardAsWritten)));
    }
  }

  // ---------------------------------------------------------------- the guard of the ack arm

  /** The condition as the source writes it. */
  predicate GuardAsWritten(seqNum: int, bn: int) {
    seqNum - 1 != 0 && bn == 0
  }

  lemma StaysUntouchedAsWritten(tr: Trace, f: Flow)
    requires tr.IsRun(f) && f.bn >= 1 && f.guard == Formula(GuardAsWritten)
    ensures forall s | s in tr.states :: s.Untouched()
  {
    hide Trace.IsRun, Sender.Untouched;
    forall i | 0 <= i < |tr.states|
      ensures tr.states[i].Untouched()
    {
      DeafStaysUntouched(tr, f, i);
    }
  }

  /** The condition the send side suggests was meant: the echo of the first packet of a train. */
  predicate GuardPerTrain(seqNum: int, bn: int) {
    bn > 0 && seqNum >= 1 && Phase(seqNum - 1, bn) == 0
  }

  /** The train an echo of packet `k` would settle: the ack arm hands `(k + 1) / bn` to `on_ack`, which
      takes one off. */
  function Settles(k: int, bn: int): int
    requires bn >= 1
  {
    (k + 1) / bn - 1
  }

  /** That is the train packet `k` belongs to if and only if `k` is the last packet of its train, and
      otherwise the train before it. */
  lemma EchoSettlesOwnTrain(k: int, bn: int)
    requires k >= 0 && bn >= 1
    ensures Settles(k, bn) == k / bn <==> Phase(k, bn) == bn - 1
    ensures Phase(k, bn) != bn - 1 ==> Settles(k, bn) == k / bn - 1
  {
    NextPhase(k, bn);
  }

  /** So a guard that picks the first packet of each train settles the right one only if trains are one
      packet long. */
  lemma PerTrainGuardSettles(k: int, bn: int)
    requires k >= 0 && bn >= 1 && GuardPerTrain(k + 1, bn)
    ensures Settles(k, bn) == k / bn <==> bn == 1
  {
  }
}
