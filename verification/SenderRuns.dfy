/** The send loop `tcp_transport<T>::send_data` (vns/vns_transport.hh:144-270) as a state machine over the
    controller's: what each of its steps needs and does, and what follows for every run, whatever the
    clock and the network do. */
module SenderRuns {
  import opened PacketBooks
  import opened Steering
  import opened Controller
  import opened ControllerRuns
  import opened ControllerTheorems
  import opened PacingLog
  import opened Division

  const NEG := -1
  const HDR_SZ := 32
  const PKT_SZ := 1440
  const PAYLOAD := PKT_SZ - HDR_SZ

  /** One packet header; the receiver echoes it with `recvTs` filled in. */
  datatype Header = Header(seqNum: int, fid: int, sid: int, sendTs: real, recvTs: real)

  /** What passes between the loop and the world: a clock reading, a packet sent, something received, or
      a wait in which nothing arrives. */
  datatype Traffic = Read(t: real) | Sent(h: Header) | Got(h: Header) | Silence

  /** When the ack arm hands an echo to the controller: by a formula on the number that arrives, one more
      than the packet's, and the train length, or as it likes. */
  datatype AckGuard = Formula(holds: (int, int) -> bool) | Anything {
    ghost predicate Deaf(bn: int) {
      Formula? && forall k :: !holds(k, bn)
    }
  }

  /** What one call of `send_data` is given. */
  datatype Flow = Flow(bn: int, fid: int, sid: int, fsz: real, byteSwitcher: bool, guard: AckGuard) {
    predicate Owns(h: Header) {
      h.sid == sid && h.fid == fid
    }

    /** The condition of the outer loop. */
    predicate Unfinished(npkts: int, now: real) {
      (if byteSwitcher then (npkts * PAYLOAD) as real else now) < fsz
    }

    ghost predicate Allows(told: bool, seqNum: int) {
      guard.Formula? ==> told == guard.holds(seqNum + 1, bn)
    }
  }

  /** Where the loop is: at its top, in the inner loop, before the clock reading that precedes the poll, or
      waiting for something to arrive. */
  datatype Pc = Top | Sending | Waiting | Polling

  /** What happens next: the clock is read and the timeout looked at; a packet goes out; the inner loop
      ends; the clock is read; the wait ends with nothing, with a packet of somebody else's, or with an
      echo, of which the controller is told or not. */
  datatype Happening =
    | Look(ts: real)
    | Out
    | Settle
    | Wait(ts: real)
    | Idle(ts: real)
    | Foreign(h: Header)
    | In(h: Header, ts: real, told: bool)

  /** The controller after it has heard, at `ts`, of an acknowledgement. */
  ghost function Hears(c: Ctl, ts: real, ack: int, sendTs: real): Ctl
    requires Inv(c) && c.currTs <= ts && sendTs <= ts
  {
    TickKeeps(c, ts);
    CoreOf(c.SetTs(ts));
    c.SetTs(ts).OnAck(ack, sendTs)
  }

  /** The controller after it has been told, at `ts`, of the first packet of a train. */
  ghost function Opened(c: Ctl, ts: real, id: int): Ctl
    requires Inv(c)
  {
    CoreOf(c);
    CoreIs(c);
    c.SetTs(ts).OnPktSent(id)
  }

  /** The controller when it starts over. */
  ghost function Reset(c: Ctl, ts: real): Ctl {
    c.SetTs(ts).Initialize()
  }

  /** What the source prints at the end: packets and bytes acknowledged, and the delays added up. */
  datatype Stats = Stats(npkts: int, nbytes: int, delayAggr: real) {
    function Plus(delay: real): Stats {
      Stats(npkts + 1, nbytes + PAYLOAD, delayAggr + delay)
    }
  }

  /** No packet is stamped later than now. */
  ghost predicate Stamped(sent: seq<real>, now: real) {
    forall k | 0 <= k < |sent| :: sent[k] <= now
  }

  /** A train count above every id the controller has been told of. */
  ghost predicate IssuedBelow(b: Books, trains: int) {
    forall id | id in b.Issued() :: id < trains
  }

  lemma IssuedIs(b: Books, id: int)
    requires IssuedBelow(b, id) && id >= 0
    ensures b.Unissued(id)
  {
  }

  lemma IssuedNext(b: Books, b': Books, id: int)
    requires IssuedBelow(b, id) && b'.Issued() == b.Issued() + {id}
    ensures IssuedBelow(b', id + 1)
  {
  }

  /** The loop between two steps: `sent` holds the time each packet went out at, and `now` is the clock
      reading the loop works with. */
  datatype Sender = Sender(
    pc: Pc, ctl: Ctl, sent: seq<real>, largestAck: int, lastSTs: real, lastAckTs: real, stats: Stats, now: real)
  {
    /** The next packet, as it would go out now. */
    function NextShot(): Shot {
      Shot(|sent|, now, largestAck, ctl.steer.cwnd, ctl.intersend, lastSTs)
    }

    function Room(): real {
      largestAck as real + ctl.steer.cwnd + 1.0
    }

    /** The condition of the inner loop. */
    predicate MaySend(bn: int)
      requires bn >= 1
    {
      Opens(NextShot(), bn) || Phase(|sent|, bn) != 0
    }

    /** Two seconds have passed without an echo. */
    predicate TimedOut(ts: real) {
      ts - lastAckTs > 2000.0
    }

    /** What holds between any two steps. */
    ghost predicate Sound(f: Flow) {
      && f.bn >= 1 && Inv(ctl) && 0.0 <= now && ctl.currTs <= now
      && NEG <= largestAck <= |sent| && lastAckTs <= now
      && Stamped(sent, now) && IssuedBelow(ctl.books, Trains(|sent|, f.bn))
      && Between(|sent|, f.bn, Room(), lastSTs, ctl.intersend, now)
      && (pc != Sending ==> Phase(|sent|, f.bn) == 0)
    }

    ghost predicate May(e: Happening, f: Flow)
      requires f.bn >= 1
    {
      match e
      case Look(ts) => pc == Top && now <= ts && f.Unfinished(stats.npkts, now)
      case Out => pc == Sending && MaySend(f.bn)
      case Settle => pc == Sending && !MaySend(f.bn)
      case Wait(ts) => pc == Waiting && now <= ts
      case Idle(ts) => pc == Polling && now <= ts
      case Foreign(h) => pc == Polling && !f.Owns(h)
      case In(h, ts, told) =>
        && pc == Polling && now <= ts && f.Owns(h)
        && 0 <= h.seqNum < |sent| && h.sendTs == sent[h.seqNum] && f.Allows(told, h.seqNum)
    }

    ghost function Do(e: Happening, f: Flow): Sender
      requires Sound(f) && May(e, f)
    {
      match e
      case Look(ts) =>
        if TimedOut(ts) then
          this.(pc := Sending, now := ts, ctl := Reset(ctl, ts), largestAck := |sent| - 1,
                lastSTs := ts, lastAckTs := ts)
        else this.(pc := Sending, now := ts)
      case Out =>
        this.(sent := sent + [now], lastSTs := lastSTs + ctl.intersend,
              ctl := if Phase(|sent|, f.bn) == 0 then Opened(ctl, now, |sent| / f.bn) else ctl)
      case Settle =>
        var behind := now - lastSTs >= Charge(f.bn, ctl.intersend);
        var full := |sent| as real >= largestAck as real + ctl.steer.cwnd;
        this.(pc := Waiting, lastSTs := if behind || full then now else lastSTs)
      case Wait(ts) => this.(pc := Polling, now := ts)
      case Idle(ts) => this.(pc := Top, now := ts)
      case Foreign(_) => this.(pc := Top)
      case In(h, ts, told) =>
        this.(pc := Top, now := ts, lastAckTs := ts, stats := stats.Plus(ts - h.sendTs),
              largestAck := if largestAck < h.seqNum + 1 then h.seqNum + 1 else largestAck,
              ctl := if told then Hears(ctl, ts, (h.seqNum + 1) / f.bn, h.sendTs) else ctl)
    }

    /** A run begins with the controller just initialized and nothing sent. */
    ghost predicate Begun() {
      && pc == Top && sent == [] && largestAck == NEG && 0.0 <= lastSTs == lastAckTs <= now
      && Inv(ctl) && ctl.currTs == now && Untouched()
      && ctl.books == EMPTY_BOOKS && ctl.steer.updateAmt == 1.0
    }

    /** The controller has the window and the pacing `initialize` gave it, and has heard nothing. */
    predicate Untouched() {
      ctl.nack == 0 && ctl.steer.cwnd == NPROBE as real && ctl.intersend == 0.0
    }
  }

  // ---------------------------------------------------------------- the controller's part of a step

  lemma OpenedIs(c: Ctl, ts: real, id: int)
    requires Inv(c) && c.currTs <= ts && c.books.Unissued(id)
    ensures var c' := Opened(c, ts, id);
      && Inv(c') && c'.currTs == ts && c'.books.Issued() == c.books.Issued() + {id}
      && c'.steer == c.steer && c'.nack == c.nack && c'.intersend == c.intersend
  {
    hide Inv, Ctl.OnPktSent;
    CoreOf(c);
    CoreIs(c);
    TickKeeps(c, ts);
    SendKeeps(c.SetTs(ts), id);
    QuietKeepsWindow(c.SetTs(ts), Send(id));
    SentIssues(c.SetTs(ts), id);
  }

  lemma OutTells(s: Sender, f: Flow)
    requires s.Sound(f) && s.May(Out, f)
    ensures var c := s.Do(Out, f).ctl;
      c.steer == s.ctl.steer && c.nack == s.ctl.nack && c.intersend == s.ctl.intersend
  {
    hide Inv, Phase, Charge, Between, Opened;
    if Phase(|s.sent|, f.bn) == 0 {
      assert Trains(|s.sent|, f.bn) == |s.sent| / f.bn >= 0;
      OpenedIs(s.ctl, s.now, |s.sent| / f.bn);
    }
  }

  lemma SentIssues(c: Ctl, id: int)
    requires Inv(c)
    ensures c.OnPktSent(id).books.Issued() == c.books.Issued() + {id} && c.OnPktSent(id).currTs == c.currTs
  {
  }

  lemma HearsIs(c: Ctl, ts: real, ack: int, sendTs: real)
    requires Inv(c) && c.currTs <= ts && sendTs <= ts
    ensures var c' := Hears(c, ts, ack, sendTs);
      Inv(c') && c'.currTs == ts && c'.books.Issued() == c.books.Issued() && c'.nack == c.nack + 1
  {
    hide Inv, Ctl.OnAck, Ctl.Core, Books.Acknowledged;
    TickKeeps(c, ts);
    CoreOf(c.SetTs(ts));
    AckKeeps(c.SetTs(ts), ack, sendTs);
    AckBooks(c.SetTs(ts), ack, sendTs);
    AcknowledgedIssues(c.SetTs(ts), ack - 1);
  }

  lemma AcknowledgedIssues(c: Ctl, seqNo: int)
    requires Inv(c)
    ensures c.books.Acknowledged(seqNo).Issued() == c.books.Issued()
  {
    AcknowledgedKeepsBalance(c.books, seqNo);
  }

  lemma ResetIs(c: Ctl, ts: real)
    requires c.Core() && ts >= 0.0
    ensures var c' := Reset(c, ts);
      && Inv(c') && c'.currTs == ts && c'.books == EMPTY_BOOKS && c'.nack == 0
      && c'.steer.cwnd == NPROBE as real && c'.steer.updateAmt == 1.0 && c'.intersend == 0.0
  {
    RestartEstablishes(c, ts);
  }

  // ---------------------------------------------------------------- every step keeps the loop sound

  lemma LookKeeps(s: Sender, ts: real, f: Flow)
    requires s.Sound(f) && s.May(Look(ts), f)
    ensures s.Do(Look(ts), f).Sound(f)
  {
    hide Inv, Phase, Ctl.Initialize, Charge;
    if s.TimedOut(ts) {
      CoreOf(s.ctl);
      ResetIs(s.ctl, ts);
    }
  }

  lemma OutKeeps(s: Sender, f: Flow)
    requires s.Sound(f) && s.May(Out, f)
    ensures s.Do(Out, f).Sound(f)
    ensures s.Do(Out, f).Room() == s.Room() && Continues(s.NextShot(), s.Do(Out, f).NextShot())
    ensures |s.sent| < Limit(s.Room(), f.bn) && (|s.sent| + 1) as real < s.Room() + f.bn as real
  {
    hide Inv, Phase, Charge, Between, Opened, Limit, Trains, IssuedBelow;
    var n := |s.sent|;
    BetweenStep(n, f.bn, s.Room(), s.lastSTs, s.ctl.intersend, s.now);
    TrainsAt(n, f.bn);
    if Phase(n, f.bn) == 0 {
      IssuedIs(s.ctl.books, n / f.bn);
      OpenedIs(s.ctl, s.now, n / f.bn);
      IssuedNext(s.ctl.books, Opened(s.ctl, s.now, n / f.bn).books, n / f.bn);
    }
  }

  lemma TrainsAt(n: int, bn: int)
    requires n >= 0 && bn >= 1
    ensures n / bn >= 0 && (Phase(n, bn) == 0 ==> Trains(n, bn) == n / bn)
  {
  }

  lemma SettleKeeps(s: Sender, f: Flow)
    requires s.Sound(f) && s.May(Settle, f)
    ensures s.Do(Settle, f).Sound(f)
  {
    hide Inv, Phase, Charge;
  }

  lemma InKeeps(s: Sender, h: Header, ts: real, told: bool, f: Flow)
    requires s.Sound(f) && s.May(In(h, ts, told), f)
    ensures s.Do(In(h, ts, told), f).Sound(f)
  {
    hide Inv, Phase, Charge, Hears;
    if told {
      HearsIs(s.ctl, ts, (h.seqNum + 1) / f.bn, h.sendTs);
    }
  }

  /** Every step keeps the loop sound. */
  lemma DoKeeps(s: Sender, e: Happening, f: Flow)
    requires s.Sound(f) && s.May(e, f)
    ensures s.Do(e, f).Sound(f)
  {
    hide Inv, Phase, Charge, Opened, Hears, Reset;
    match e
    case Look(ts) => LookKeeps(s, ts, f);
    case Out => OutKeeps(s, f);
    case Settle => SettleKeeps(s, f);
    case In(h, ts, told) => InKeeps(s, h, ts, told, f);
    case Wait(_) =>
    case Idle(_) =>
    case Foreign(_) =>
  }

  lemma BegunIsSound(s: Sender, f: Flow)
    requires f.bn >= 1 && s.Begun()
    ensures s.Sound(f)
  {
    hide Inv;
    FirstPhase(f.bn);
  }

  // ---------------------------------------------------------------- runs

  /** The states of a run and the steps between them. */
  datatype Trace = Trace(states: seq<Sender>, steps: seq<Happening>) {
    ghost predicate Step(i: nat, f: Flow)
      requires i < |steps| && |states| == |steps| + 1
    {
      states[i].Sound(f) && states[i].May(steps[i], f) && states[i + 1] == states[i].Do(steps[i], f)
    }

    ghost predicate IsRun(f: Flow) {
      && |states| == |steps| + 1 && states[0].Begun() && Last().Sound(f)
      && forall i | 0 <= i < |steps| :: Step(i, f)
    }

    function Last(): Sender
      requires states != []
    {
      states[|states| - 1]
    }

    ghost function More(e: Happening, f: Flow): Trace
      requires IsRun(f) && Last().May(e, f)
    {
      Trace(states + [Last().Do(e, f)], steps + [e])
    }

    function Before(i: nat): Trace
      requires i <= |steps| && |states| == |steps| + 1
    {
      Trace(states[..i + 1], steps[..i])
    }
  }

  lemma RunBegins(s: Sender, f: Flow)
    requires f.bn >= 1 && s.Begun()
    ensures Trace([s], []).IsRun(f)
  {
    hide Sender.Begun, Sender.Sound;
    BegunIsSound(s, f);
  }

  lemma RunGoesOn(tr: Trace, e: Happening, f: Flow)
    requires tr.IsRun(f) && tr.Last().May(e, f)
    ensures tr.More(e, f).IsRun(f) && tr.More(e, f).Last() == tr.Last().Do(e, f)
  {
    hide Sender.Begun, Sender.Sound, Sender.May, Sender.Do;
    DoKeeps(tr.Last(), e, f);
    var tr' := tr.More(e, f);
    forall i | 0 <= i < |tr'.steps|
      ensures tr'.Step(i, f)
    {
      assert i < |tr.steps| ==> tr.Step(i, f);
    }
  }

  lemma RunBefore(tr: Trace, i: nat, f: Flow)
    requires tr.IsRun(f) && i <= |tr.steps|
    ensures tr.Before(i).IsRun(f) && tr.Before(i).Last() == tr.states[i]
  {
    hide Sender.Begun, Sender.Sound, Sender.May, Sender.Do;
    assert i < |tr.steps| ==> tr.Step(i, f);
    forall k | 0 <= k < i
      ensures tr.Before(i).Step(k, f)
    {
      assert tr.Step(k, f);
    }
  }

  /** The last step of a run. */
  lemma LastStep(tr: Trace, f: Flow)
    requires tr.IsRun(f) && tr.steps != []
    ensures var n := |tr.steps| - 1;
      && tr.Before(n).IsRun(f) && tr.Before(n).Last() == tr.states[n] && tr.Before(n).states[0] == tr.states[0]
      && tr.states[n].Sound(f) && tr.states[n].May(tr.steps[n], f)
      && tr.Last() == tr.states[n].Do(tr.steps[n], f)
  {
    hide Sender.Begun, Sender.Sound, Sender.May, Sender.Do;
    assert tr.Step(|tr.steps| - 1, f);
    RunBefore(tr, |tr.steps| - 1, f);
  }

  /** How many turns of the outer loop the steps begin. */
  function Looks(steps: seq<Happening>): nat {
    if steps == [] then 0 else Looks(steps[..|steps| - 1]) + if steps[|steps| - 1].Look? then 1 else 0
  }

  lemma OneMoreLook(steps: seq<Happening>, e: Happening)
    ensures Looks(steps + [e]) == Looks(steps) + if e.Look? then 1 else 0
  {
    assert (steps + [e])[..|steps|] == steps;
  }

  // ---------------------------------------------------------------- what a run puts on the wire

  function HeaderOf(s: Sender, f: Flow): Header {
    Header(|s.sent|, f.fid, f.sid, s.now, 0.0)
  }

  function StepTraffic(s: Sender, e: Happening, f: Flow): seq<Traffic> {
    match e
    case Look(ts) => [Read(ts)]
    case Out => [Sent(HeaderOf(s, f))]
    case Settle => []
    case Wait(ts) => [Read(ts)]
    case Idle(ts) => [Silence, Read(ts)]
    case Foreign(h) => [Got(h)]
    case In(h, ts, _) => [Got(h), Read(ts)]
  }

  /** Everything that passed between the loop and the world, in order. */
  function TrafficOf(tr: Trace, f: Flow): seq<Traffic>
    requires |tr.states| == |tr.steps| + 1
    decreases |tr.steps|
  {
    if tr.steps == [] then []
    else
      var n := |tr.steps| - 1;
      TrafficOf(tr.Before(n), f) + StepTraffic(tr.states[n], tr.steps[n], f)
  }

  /** The packets sent, each with what it was sent under. */
  function Shots(tr: Trace): seq<Shot>
    requires |tr.states| == |tr.steps| + 1
    decreases |tr.steps|
  {
    if tr.steps == [] then []
    else
      var n := |tr.steps| - 1;
      Shots(tr.Before(n)) + if tr.steps[n].Out? then [tr.states[n].NextShot()] else []
  }

  lemma MoreTraffic(tr: Trace, e: Happening, f: Flow)
    requires tr.IsRun(f) && tr.Last().May(e, f)
    ensures TrafficOf(tr.More(e, f), f) == TrafficOf(tr, f) + StepTraffic(tr.Last(), e, f)
  {
    hide Sender.Begun, Sender.Sound, Sender.May, Sender.Do;
    assert tr.More(e, f).Before(|tr.steps|) == tr;
  }

  /** The packets among the traffic. */
  function Packets(traffic: seq<Traffic>): seq<Header> {
    if traffic == [] then []
    else
      var n := |traffic| - 1;
      Packets(traffic[..n]) + if traffic[n].Sent? then [traffic[n].h] else []
  }

  lemma {:induction false} PacketsGrow(a: seq<Traffic>, b: seq<Traffic>)
    ensures Packets(a + b) == Packets(a) + Packets(b)
    decreases |b|
  {
    if b == [] {
      assert a + b == a;
    } else {
      var n := |b| - 1;
      assert (a + b)[..|a + b| - 1] == a + b[..n] && (a + b)[|a + b| - 1] == b[n];
      PacketsGrow(a, b[..n]);
    }
  }

  lemma {:induction false} PacketIsThere(traffic: seq<Traffic>, h: Header)
    requires Sent(h) in traffic
    ensures h in Packets(traffic)
  {
    var n := |traffic| - 1;
    if traffic[n] != Sent(h) {
      assert Sent(h) in traffic[..n];
      PacketIsThere(traffic[..n], h);
    }
  }

  function HeadersOf(sent: seq<real>, f: Flow): (hs: seq<Header>)
    ensures |hs| == |sent|
  {
    seq(|sent|, k requires 0 <= k < |sent| => Header(k, f.fid, f.sid, sent[k], 0.0))
  }

  /** What the loop remembers of the packets it has sent is what went out: numbered from 0, in order, each
      once. */
  lemma {:induction false} SentIsWire(tr: Trace, f: Flow)
    requires tr.IsRun(f)
    ensures Packets(TrafficOf(tr, f)) == HeadersOf(tr.Last().sent, f)
    decreases |tr.steps|
  {
    hide Sender.Begun, Sender.Sound, Phase, Opened, Hears, Reset, Charge, Sender.MaySend, Inv, Packets;
    if tr.steps == [] {
      assert |tr.Last().sent| == 0 by { RunIsWellPaced(tr, f); }
      assert Packets([]) == [] by { PacketsOfFew(Silence, Silence); }
    } else {
      var n := |tr.steps| - 1;
      LastStep(tr, f);
      SentIsWire(tr.Before(n), f);
      PacketsGrow(TrafficOf(tr.Before(n), f), StepTraffic(tr.states[n], tr.steps[n], f));
      StepPackets(tr.states[n], tr.steps[n], f);
    }
  }

  lemma StepPackets(s: Sender, e: Happening, f: Flow)
    ensures Packets(StepTraffic(s, e, f)) == if e.Out? then [HeaderOf(s, f)] else []
  {
    hide Packets;
    var t := StepTraffic(s, e, f);
    if |t| == 2 {
      PacketsOfFew(t[0], t[1]);
    } else if |t| == 1 {
      PacketsOfFew(t[0], Silence);
    } else {
      PacketsOfFew(Silence, Silence);
    }
  }

  lemma PacketsOfFew(a: Traffic, b: Traffic)
    ensures Packets([]) == []
    ensures Packets([a]) == if a.Sent? then [a.h] else []
    ensures !b.Sent? ==> Packets([a, b]) == Packets([a])
  {
    assert [a][..0] == [] && [a, b][..1] == [a];
  }

  // ---------------------------------------------------------------- pacing

  /** The packets of every run form a well-paced log; each goes out under the acknowledgement, the window
      and the pacing of the state just before it. */
  lemma {:induction false} RunIsWellPaced(tr: Trace, f: Flow)
    requires tr.IsRun(f)
    ensures f.bn >= 1 && |Shots(tr)| == |tr.Last().sent|
    ensures forall k | 0 <= k < |tr.Last().sent| :: Shots(tr)[k].ts == tr.Last().sent[k]
    ensures Resumes(Shots(tr), f.bn, tr.states[0].lastSTs, tr.Last().lastSTs, tr.Last().now)
    ensures Phase(|tr.Last().sent|, f.bn) != 0 ==> InTrain(Shots(tr), tr.Last().NextShot())
    decreases |tr.steps|
  {
    hide Inv, Phase, Opened, Hears, Reset, Charge, Resumes, InTrain, Between, Opens;
    if tr.steps == [] {
      assert |tr.Last().sent| == 0;
      FirstPhase(f.bn);
      NothingSent(f.bn, tr.Last().lastSTs, tr.Last().now);
    } else {
      var n := |tr.steps| - 1;
      LastStep(tr, f);
      RunIsWellPaced(tr.Before(n), f);
      StepIsPaced(tr.states[n], tr.steps[n], f, Shots(tr.Before(n)), tr.states[0].lastSTs);
    }
  }

  lemma ClockIsAhead(s: Sender, f: Flow)
    requires s.Sound(f) && Phase(|s.sent|, f.bn) == 0
    ensures s.lastSTs <= s.now
  {
    hide Inv, Phase;
  }

  lemma OutIsPaced(s: Sender, f: Flow, log: seq<Shot>, start: real)
    requires s.Sound(f) && s.May(Out, f) && |log| == |s.sent|
    requires Resumes(log, f.bn, start, s.lastSTs, s.now)
    requires Phase(|s.sent|, f.bn) != 0 ==> InTrain(log, s.NextShot())
    ensures var s', log' := s.Do(Out, f), log + [s.NextShot()];
      Resumes(log', f.bn, start, s'.lastSTs, s'.now) && InTrain(log', s'.NextShot())
  {
    hide Inv, Phase, Opened, Charge, Resumes, Between, Opens, Continues;
    PacingMatchesWindow(s.ctl);
    LogGrows(log, s.NextShot(), f.bn, start);
    OutKeeps(s, f);
  }

  lemma StepIsPaced(s: Sender, e: Happening, f: Flow, log: seq<Shot>, start: real)
    requires s.Sound(f) && s.May(e, f) && |log| == |s.sent|
    requires Resumes(log, f.bn, start, s.lastSTs, s.now)
    requires Phase(|s.sent|, f.bn) != 0 ==> InTrain(log, s.NextShot())
    ensures var s', log' := s.Do(e, f), log + if e.Out? then [s.NextShot()] else [];
      && Resumes(log', f.bn, start, s'.lastSTs, s'.now)
      && (Phase(|s'.sent|, f.bn) != 0 ==> InTrain(log', s'.NextShot()))
  {
    hide Inv, Phase, Opened, Hears, Reset, Charge, Resumes, InTrain, Between, Opens;
    var s' := s.Do(e, f);
    if e.Out? {
      OutIsPaced(s, f, log, start);
    } else {
      ClockIsAhead(s, f);
      assert log + [] == log;
      ResumesLater(log, f.bn, start, s.lastSTs, s.now, s'.lastSTs, s'.now);
    }
  }

  /** Between trains the charges of all packets so far fit into the time since the start, and every packet
      went out within a train of the window it went out under. */
  lemma ChargesFitRun(tr: Trace, f: Flow)
    requires tr.IsRun(f) && Phase(|tr.Last().sent|, f.bn) == 0
    ensures var log, start := Shots(tr), tr.states[0].lastSTs;
      && WellPaced(log, f.bn, start)
      && (log != [] ==> Charged(log) <= log[|log| - 1].ts - start <= tr.Last().now - start)
      && forall i | 0 <= i < |log| :: WithinTrain(log[i], i, f.bn)
  {
    hide Phase, Charged, WithinTrain, Sender.Sound, Sender.Begun, WellPaced;
    RunIsWellPaced(tr, f);
    RunIsPaced(Shots(tr), f.bn, tr.states[0].lastSTs);
  }

  // ---------------------------------------------------------------- the controller beside the loop

  /** What the controller is told in a step. */
  function StepEvents(s: Sender, e: Happening, f: Flow): seq<Event>
    requires f.bn >= 1
  {
    match e
    case Look(ts) => if s.TimedOut(ts) then [Event.Restart(ts)] else []
    case Out => if Phase(|s.sent|, f.bn) == 0 then [Tick(s.now), Send(|s.sent| / f.bn)] else []
    case In(h, ts, told) => if told then [Tick(ts), Ack((h.seqNum + 1) / f.bn, h.sendTs)] else []
    case Settle => []
    case Wait(_) => []
    case Idle(_) => []
    case Foreign(_) => []
  }

  function EventsOf(tr: Trace, f: Flow): seq<Event>
    requires |tr.states| == |tr.steps| + 1 && f.bn >= 1
    decreases |tr.steps|
  {
    if tr.steps == [] then []
    else
      var n := |tr.steps| - 1;
      EventsOf(tr.Before(n), f) + StepEvents(tr.states[n], tr.steps[n], f)
  }

  /** Told of the time and then of something else, a legal run of the controller goes on. */
  lemma TwoMore(c: Ctl, es: seq<Event>, ts: real, e: Event)
    requires Inv(c) && LegalRun(c, es) && After(c, es).currTs <= ts && Legal(After(c, es).SetTs(ts), e)
    ensures var all := es + [Tick(ts), e];
      && Inv(After(c, es).SetTs(ts)) && After(c, es).SetTs(ts).Core() && After(c, es).SetTs(ts).Clocked()
      && LegalRun(c, all) && After(c, all) == Apply(After(c, es).SetTs(ts), e)
  {
    hide Inv, LegalRun, After, Ctl.Core;
    TickKeeps(After(c, es), ts);
    CoreOf(After(c, es));
    CoreOf(After(c, es).SetTs(ts));
    OneMore(c, es, Tick(ts));
    OneMore(c, es + [Tick(ts)], e);
    assert es + [Tick(ts)] + [e] == es + [Tick(ts), e];
  }

  lemma StepIsLegal(c: Ctl, es: seq<Event>, s: Sender, e: Happening, f: Flow)
    requires Inv(c) && LegalRun(c, es) && After(c, es) == s.ctl && s.Sound(f) && s.May(e, f)
    ensures LegalRun(c, es + StepEvents(s, e, f)) && After(c, es + StepEvents(s, e, f)) == s.Do(e, f).ctl
  {
    hide Inv, Phase, LegalRun, After, Charge, Between, Ctl.Initialize, Ctl.OnAck, Ctl.OnPktSent, Sender.MaySend;
    CoreOf(s.ctl);
    assert es + [] == es;
    match e
    case Look(ts) => OneMore(c, es, Event.Restart(ts));
    case Out =>
      if Phase(|s.sent|, f.bn) == 0 {
        assert Trains(|s.sent|, f.bn) == |s.sent| / f.bn >= 0;
        TwoMore(c, es, s.now, Send(|s.sent| / f.bn));
      }
    case In(h, ts, told) =>
      if told {
        TwoMore(c, es, ts, Ack((h.seqNum + 1) / f.bn, h.sendTs));
      }
    case Settle =>
    case Wait(_) =>
    case Idle(_) =>
    case Foreign(_) =>
  }

  /** The controller beside any run follows a legal run of its own, made of exactly what it is told. */
  lemma {:induction false} ControllerFollows(tr: Trace, f: Flow)
    requires tr.IsRun(f) && f.bn >= 1
    ensures Inv(tr.states[0].ctl) && LegalRun(tr.states[0].ctl, EventsOf(tr, f))
    ensures After(tr.states[0].ctl, EventsOf(tr, f)) == tr.Last().ctl
    decreases |tr.steps|
  {
    hide Inv, LegalRun, After, Sender.May, Sender.Do, Sender.Sound;
    var c := tr.states[0].ctl;
    if tr.steps == [] {
      NoEvents(c);
    } else {
      var n := |tr.steps| - 1;
      LastStep(tr, f);
      ControllerFollows(tr.Before(n), f);
      StepIsLegal(c, EventsOf(tr.Before(n), f), tr.states[n], tr.steps[n], f);
    }
  }

  /** So for every packet: it went out under the acknowledgement of the state before it and under the window
      and the pacing the controller had after exactly what it had been told by then, and the controller hears
      of the first packet of every train at the time that packet is stamped with. */
  lemma EveryShot(tr: Trace, f: Flow, i: nat)
    requires tr.IsRun(f) && i < |tr.steps| && tr.steps[i].Out? && f.bn >= 1
    ensures Inv(tr.states[0].ctl) && LegalRun(tr.states[0].ctl, EventsOf(tr.Before(i), f))
    ensures var s, k, told := tr.states[i], |tr.states[i].sent|, EventsOf(tr.Before(i), f);
      var c := After(tr.states[0].ctl, told);
      && s.MaySend(f.bn) && k < |Shots(tr)|
      && Shots(tr)[k] == Shot(k, s.now, s.largestAck, c.steer.cwnd, c.intersend, s.lastSTs)
      && EventsOf(tr.Before(i + 1), f) ==
           told + (if Phase(k, f.bn) == 0 then [Tick(s.now), Send(k / f.bn)] else [])
  {
    hide Inv, LegalRun, After, Sender.Sound, Sender.Do, Phase, Sender.MaySend;
    RunBefore(tr, i, f);
    ControllerFollows(tr.Before(i), f);
    ShotAt(tr, f, i);
    assert tr.Before(i + 1).Before(i) == tr.Before(i);
  }

  lemma {:induction false} ShotAt(tr: Trace, f: Flow, i: nat)
    requires tr.IsRun(f) && i < |tr.steps| && tr.steps[i].Out?
    ensures tr.states[i].May(Out, f)
    ensures |tr.states[i].sent| < |Shots(tr)| && Shots(tr)[|tr.states[i].sent|] == tr.states[i].NextShot()
    decreases |tr.steps|
  {
    hide Sender.Sound, Sender.Do, Sender.May;
    var n := |tr.steps| - 1;
    assert tr.Step(i, f);
    LastStep(tr, f);
    RunIsWellPaced(tr.Before(n), f);
    if i < n {
      ShotAt(tr.Before(n), f, i);
    }
  }

  /** So what holds over legal runs of the controller holds beside the loop: its packets are conserved, and
      its step size is a power of two within the largest cwnd * delta it has seen. */
  lemma ControllerKeepsLaws(tr: Trace, f: Flow)
    requires tr.IsRun(f) && f.bn >= 1
    ensures var b := tr.Last().ctl.books;
      && b.nsent == |b.unacked| + |b.lost| + |b.acked| && b.nlost == |b.lost|
      && b.unacked.Keys !! b.lost && b.unacked.Keys !! b.acked && b.lost !! b.acked
    ensures Inv(tr.states[0].ctl) && LegalRun(tr.states[0].ctl, EventsOf(tr, f))
    ensures var amt := tr.Last().ctl.steer.updateAmt;
      IsPow2(amt) && 1.0 <= amt <= PeakOf(tr.states[0].ctl, EventsOf(tr, f))
  {
    hide LegalRun, After, Sender.May, Sender.Do;
    ControllerFollows(tr, f);
    StepSizeOverRuns(tr.states[0].ctl, EventsOf(tr, f));
    assert tr.Last().ctl.books.Balanced();
  }

  /** With a guard that never holds the controller stays as `initialize` left it: every packet of every run
      goes out unpaced, under the initial window. */
  lemma {:induction false} DeafStaysUntouched(tr: Trace, f: Flow, i: nat)
    requires tr.IsRun(f) && f.guard.Deaf(f.bn) && i < |tr.states|
    ensures tr.states[i].Untouched()
  {
    hide Inv, Phase, Charge, Between, Opened, Hears, Reset, Sender.MaySend;
    if i > 0 {
      DeafStaysUntouched(tr, f, i - 1);
      assert tr.Step(i - 1, f);
      DeafStep(tr.states[i - 1], tr.steps[i - 1], f);
    }
  }

  lemma DeafStep(s: Sender, e: Happening, f: Flow)
    requires s.Sound(f) && s.May(e, f) && f.guard.Deaf(f.bn) && s.Untouched()
    ensures s.Do(e, f).Untouched()
  {
    hide Inv, Phase, Charge, Between, Opened, Hears, Reset;
    CoreOf(s.ctl);
    match e
    case Look(ts) => ResetIs(s.ctl, ts);
    case Out => OutTells(s, f);
    case _ =>
  }
}
