/** What the soundness of the send loop means for whole runs: when it gives up, what a turn sends, what the
    pacing clock allows, what an echo does, and how much a run can send. */
module SenderTheorems {
  import opened PacketBooks
  import opened Controller
  import opened ControllerRuns
  import opened ControllerTheorems
  import opened PacingLog
  import opened SenderRuns
  import opened Division

  // ---------------------------------------------------------------- timeouts

  /** Step `i` gives up on everything sent so far. */
  predicate GivesUpAt(tr: Trace, i: nat)
    requires |tr.states| == |tr.steps| + 1 && i < |tr.steps|
  {
    tr.steps[i].Look? && tr.states[i].TimedOut(tr.steps[i].ts)
  }

  /** Step `i` starts the two seconds anew. */
  predicate RestsAt(tr: Trace, i: nat)
    requires |tr.states| == |tr.steps| + 1 && i < |tr.steps|
  {
    tr.steps[i].In? || GivesUpAt(tr, i)
  }

  lemma {:induction false} AckTimeAdvances(tr: Trace, f: Flow, i: nat, j: nat)
    requires tr.IsRun(f) && i <= j < |tr.states|
    ensures tr.states[i].lastAckTs <= tr.states[j].lastAckTs
    decreases j - i
  {
    hide Inv, Phase, Charge, Between, Opened, Hears, Reset, Sender.MaySend;
    if i < j {
      AckTimeAdvances(tr, f, i, j - 1);
      assert tr.Step(j - 1, f);
    }
  }

  /** The loop gives up only after more than two seconds without an echo, without having given up, and not
      in the first two seconds of the run. */
  lemma GiveUpNeedsSilence(tr: Trace, f: Flow, j: nat)
    requires tr.IsRun(f) && j < |tr.steps| && GivesUpAt(tr, j)
    ensures tr.steps[j].ts - tr.states[0].lastAckTs > 2000.0
    ensures forall i | 0 <= i < j && RestsAt(tr, i) :: tr.steps[j].ts - tr.steps[i].ts > 2000.0
  {
    hide Inv, Phase, Charge, Between, Opened, Hears, Reset, Sender.MaySend;
    AckTimeAdvances(tr, f, 0, j);
    forall i | 0 <= i < j && RestsAt(tr, i)
      ensures tr.steps[j].ts - tr.steps[i].ts > 2000.0
    {
      assert tr.Step(i, f);
      AckTimeAdvances(tr, f, i + 1, j);
    }
  }

  /** The time of the latest echo or give-up before step `j`, or of the start; told from the times alone. */
  function Heard(tr: Trace, j: nat): real
    requires |tr.states| == |tr.steps| + 1 && j <= |tr.steps|
  {
    if j == 0 then tr.states[0].lastAckTs
    else
      match tr.steps[j - 1]
      case In(_, ts, _) => ts
      case Look(ts) => if ts - Heard(tr, j - 1) > 2000.0 then ts else Heard(tr, j - 1)
      case _ => Heard(tr, j - 1)
  }

  lemma {:induction false} HeardIs(tr: Trace, f: Flow, j: nat)
    requires tr.IsRun(f) && j <= |tr.steps|
    ensures tr.states[j].lastAckTs == Heard(tr, j)
  {
    hide Inv, Phase, Charge, Between, Opened, Hears, Reset, Sender.MaySend;
    if j > 0 {
      HeardIs(tr, f, j - 1);
      assert tr.Step(j - 1, f);
    }
  }

  /** The loop starts over: all packets count as acknowledged, the pacing clock and the silence begin now, and
      the controller is as `initialize` leaves it. */
  ghost predicate StartsOver(s: Sender, s': Sender, ts: real) {
    && s'.largestAck == |s.sent| - 1 && s'.sent == s.sent && s'.stats == s.stats
    && s'.lastSTs == s'.lastAckTs == s'.now == s'.ctl.currTs == ts
    && Inv(s'.ctl) && s'.Untouched() && s'.ctl.books == EMPTY_BOOKS && s'.ctl.steer.updateAmt == 1.0
  }

  /** At the top of every turn of every run: the loop starts over if more than two seconds have passed since the
      latest echo or give-up, or else the start, and otherwise nothing changes but the clock reading. */
  lemma StartsOverIff(tr: Trace, f: Flow, j: nat)
    requires tr.IsRun(f) && j < |tr.steps| && tr.steps[j].Look?
    ensures var s, s', ts := tr.states[j], tr.states[j + 1], tr.steps[j].ts;
      if ts - Heard(tr, j) > 2000.0 then StartsOver(s, s', ts) else s' == s.(pc := Sending, now := ts)
  {
    hide Inv, Phase, Charge, Between, Opened, Hears, Reset, Sender.MaySend;
    HeardIs(tr, f, j);
    assert tr.Step(j, f);
    CoreOf(tr.states[j].ctl);
    SoundClock(tr.states[j], f);
    ResetIs(tr.states[j].ctl, tr.steps[j].ts);
  }

  lemma SoundClock(s: Sender, f: Flow)
    requires s.Sound(f)
    ensures 0.0 <= s.now && s.lastAckTs <= s.now
  {
    hide Inv;
  }

  // ---------------------------------------------------------------- what a turn sends

  /** The inner loop ends only between trains, and only when the next packet would be beyond the window or the
      pacing clock is less than a train behind. */
  lemma SettlesWhenFull(tr: Trace, f: Flow, i: nat)
    requires tr.IsRun(f) && i < |tr.steps| && tr.steps[i].Settle?
    ensures var s := tr.states[i];
      && f.bn >= 1 && |s.sent| % f.bn == 0
      && (|s.sent| as real >= s.largestAck as real + s.ctl.steer.cwnd + 1.0
          || s.now < s.lastSTs + s.ctl.intersend * f.bn as real)
  {
    hide Inv, Between;
    assert tr.Step(i, f);
  }

  /** The steps from `i` to `j` each send one packet. */
  ghost predicate OnlySends(tr: Trace, i: nat, j: nat) {
    forall k | i <= k < j < |tr.steps| :: tr.steps[k] == Out
  }

  lemma {:induction false} SendingKeeps(tr: Trace, f: Flow, i: nat, j: nat)
    requires tr.IsRun(f) && i <= j < |tr.steps| && OnlySends(tr, i, j)
    ensures var a, b := tr.states[i], tr.states[j];
      && b.largestAck == a.largestAck && b.ctl.steer.cwnd == a.ctl.steer.cwnd && b.ctl.intersend == a.ctl.intersend
      && b.now == a.now && b.lastAckTs == a.lastAckTs
    decreases j - i
  {
    hide Inv, Phase, Charge, Between, Opened, Hears, Reset, Sender.MaySend;
    if i < j {
      SendingKeeps(tr, f, i, j - 1);
      assert tr.Step(j - 1, f) && tr.steps[j - 1] == Out;
      OutTells(tr.states[j - 1], f);
    }
  }

  /** After two silent seconds the loop does send again: at least ten packets in that very turn. */
  lemma ResumesAfterSilence(tr: Trace, f: Flow, j: nat, i: nat)
    requires tr.IsRun(f) && j < i < |tr.steps| && tr.steps[j].Look? && tr.steps[i].Settle? && OnlySends(tr, j + 1, i)
    requires tr.steps[j].ts - Heard(tr, j) > 2000.0
    ensures |tr.states[i].sent| >= |tr.states[j].sent| + 10
  {
    hide Inv, Phase, Between, Sender.Sound, Sender.May, Sender.Do, Opened, Hears, Reset, Sender.MaySend;
    StartsOverIff(tr, f, j);
    SendingKeeps(tr, f, j + 1, i);
    SettlesWhenFull(tr, f, i);
    assert tr.Step(i, f);
    BetweenTrainsBehind(tr.states[i], f);
  }

  lemma BetweenTrainsBehind(s: Sender, f: Flow)
    requires s.Sound(f) && s.May(Settle, f)
    ensures s.lastSTs <= s.now
  {
    hide Inv;
  }

  /** What the loop makes of time it has not used: never more than a train's worth is kept, none while the window
      is full, and all of it otherwise. */
  lemma CreditIsCapped(tr: Trace, f: Flow, i: nat)
    requires tr.IsRun(f) && i < |tr.steps| && tr.steps[i].Settle?
    ensures var s, s' := tr.states[i], tr.states[i + 1];
      var credit, left, train := s.now - s.lastSTs, s'.now - s'.lastSTs, s.ctl.intersend * f.bn as real;
      && s' == s.(pc := Waiting, lastSTs := s'.lastSTs) && credit >= 0.0
      && (left == 0.0 || 0.0 <= left < train)
      && (|s.sent| as real >= s.largestAck as real + s.ctl.steer.cwnd ==> left == 0.0)
      && (|s.sent| as real < s.largestAck as real + s.ctl.steer.cwnd && credit < train ==> left == credit)
  {
    hide Inv, Between;
    assert tr.Step(i, f);
    BetweenTrainsBehind(tr.states[i], f);
  }

  /** So there are no bursts to catch up: between the end of any inner loop and any later point between trains,
      the packets charge no more than the time passed and one train. */
  lemma NoCatchUp(tr: Trace, f: Flow, i: nat, j: nat)
    requires tr.IsRun(f) && i < j < |tr.states| && tr.steps[i].Settle? && Phase(|tr.states[j].sent|, f.bn) == 0
    ensures var train := tr.states[i].ctl.intersend * f.bn as real;
      Charged(Shots(tr.Before(j))) - Charged(Shots(tr.Before(i + 1))) <= tr.states[j].now - tr.states[i].now + train
  {
    hide Inv, Phase, Charged, Shots, Sender.Sound, Sender.May, Sender.Do;
    CreditIsCapped(tr, f, i);
    ChargedSince(tr, f, i + 1, j);
    SoundAt(tr, f, i);
    SoundAt(tr, f, j);
    ClockIsAhead(tr.states[j], f);
    TrainIsPositive(tr.states[i], f);
  }

  lemma TrainIsPositive(s: Sender, f: Flow)
    requires s.Sound(f)
    ensures s.ctl.intersend * f.bn as real >= 0.0
  {
    hide Between, Charge;
    PacingMatchesWindow(s.ctl);
    hide Inv;
  }

  lemma SoundAt(tr: Trace, f: Flow, i: nat)
    requires tr.IsRun(f) && i < |tr.states|
    ensures tr.states[i].Sound(f)
  {
    hide Sender.Sound;
    if i < |tr.steps| {
      assert tr.Step(i, f);
    }
  }

  /** The pacing clock moves by at least what is charged. */
  lemma {:induction false} ChargedSince(tr: Trace, f: Flow, i: nat, j: nat)
    requires tr.IsRun(f) && i <= j < |tr.states|
    ensures Charged(Shots(tr.Before(j))) - Charged(Shots(tr.Before(i))) <= tr.states[j].lastSTs - tr.states[i].lastSTs
    decreases j - i
  {
    hide Trace.Step, Sender.Do, Sender.May, Charged, Shots;
    if i < j {
      ChargedSince(tr, f, i, j - 1);
      ShotsGrow(tr, f, j - 1);
      ChargedMore(Shots(tr.Before(j - 1)), tr.states[j - 1].NextShot());
    }
  }

  /** One step of a run, for its packets and its pacing clock. */
  lemma ShotsGrow(tr: Trace, f: Flow, i: nat)
    requires tr.IsRun(f) && i < |tr.steps|
    ensures var s, out := tr.states[i], tr.steps[i].Out?;
      && Shots(tr.Before(i + 1)) == Shots(tr.Before(i)) + (if out then [s.NextShot()] else [])
      && tr.states[i + 1].lastSTs - s.lastSTs >= if out then s.ctl.intersend else 0.0
  {
    hide Sender.Sound, Sender.Do, Sender.May;
    assert tr.Step(i, f);
    assert tr.Before(i + 1).Before(i) == tr.Before(i);
    StepCharges(tr.states[i], tr.steps[i], f);
  }

  lemma ChargedMore(log: seq<Shot>, s: Shot)
    ensures Charged(log + [s]) == Charged(log) + s.intersend && log + [] == log
  {
    assert (log + [s])[..|log|] == log;
  }

  lemma StepCharges(s: Sender, e: Happening, f: Flow)
    requires s.Sound(f) && s.May(e, f)
    ensures s.Do(e, f).lastSTs - s.lastSTs >= if e.Out? then s.ctl.intersend else 0.0
  {
    hide Inv, Phase, Charge, Between, Opened, Hears, Reset;
    if !e.Out? {
      ClockIsAhead(s, f);
    }
  }

  // ---------------------------------------------------------------- echoes

  /** Every echo the loop takes is of its own flow and of a packet it has sent, with the time that packet went
      out at; it counts once, and the controller is told of train (seq_num + 1) / bn at the time of the clock
      reading, exactly when the guard holds. */
  lemma EveryEcho(tr: Trace, f: Flow, i: nat)
    requires tr.IsRun(f) && i < |tr.steps| && tr.steps[i].In? && f.bn >= 1
    ensures var s, s', h, ts, told := tr.states[i], tr.states[i + 1], tr.steps[i].h, tr.steps[i].ts, tr.steps[i].told;
      && h.fid == f.fid && h.sid == f.sid && 0 <= h.seqNum < |s.sent| && h.sendTs == s.sent[h.seqNum] <= ts
      && s'.stats == Stats(s.stats.npkts + 1, s.stats.nbytes + 1408, s.stats.delayAggr + (ts - h.sendTs))
      && (f.guard.Formula? ==> told == f.guard.holds(h.seqNum + 1, f.bn))
      && EventsOf(tr.Before(i + 1), f) ==
           EventsOf(tr.Before(i), f) + if told then [Tick(ts), Ack((h.seqNum + 1) / f.bn, h.sendTs)] else []
  {
    hide Inv, Phase, Charge, Between, Opened, Hears, Reset;
    assert tr.Step(i, f);
    assert tr.Before(i + 1).Before(i) == tr.Before(i);
  }

  /** What arrives and is not taken is somebody else's. */
  lemma EveryForeign(tr: Trace, f: Flow, i: nat)
    requires tr.IsRun(f) && i < |tr.steps| && tr.steps[i].Foreign?
    ensures tr.steps[i].h.fid != f.fid || tr.steps[i].h.sid != f.sid
  {
    hide Sender.Sound;
    assert tr.Step(i, f);
  }

  /** A turn is begun only while too few bytes are acknowledged or too little time has passed. */
  lemma EveryTurn(tr: Trace, f: Flow, i: nat)
    requires tr.IsRun(f) && i < |tr.steps| && tr.steps[i].Look?
    ensures if f.byteSwitcher then (1408 * tr.states[i].stats.npkts) as real < f.fsz else tr.states[i].now < f.fsz
  {
    hide Sender.Sound;
    assert tr.Step(i, f);
  }

  /** The largest acknowledgement is no smaller than any echo taken since the loop last gave up, ... */
  lemma {:induction false} LargestAckKeepsUp(tr: Trace, f: Flow, i: nat, j: nat)
    requires tr.IsRun(f) && i < j < |tr.states| && RestsAt(tr, i)
    requires forall k | i < k < j :: !GivesUpAt(tr, k)
    ensures tr.states[j].largestAck >=
      if tr.steps[i].In? then tr.steps[i].h.seqNum + 1 else |tr.states[i].sent| - 1
    decreases j - i
  {
    hide Inv, Phase, Charge, Between, Opened, Hears, Reset, Sender.MaySend;
    assert tr.Step(j - 1, f);
    if i < j - 1 {
      assert !GivesUpAt(tr, j - 1);
      LargestAckKeepsUp(tr, f, i, j - 1);
    }
  }

  /** ... and it is that of one of them, of a time the loop gave up, or still -1. */
  lemma {:induction false} LargestAckIsOne(tr: Trace, f: Flow, j: nat)
    requires tr.IsRun(f) && j < |tr.states|
    ensures tr.states[j].largestAck == -1 || exists i: nat :: i < j && Acknowledges(tr, i, tr.states[j].largestAck)
  {
    hide Inv, Phase, Charge, Between, Opened, Hears, Reset, Sender.MaySend;
    if j > 0 {
      LargestAckIsOne(tr, f, j - 1);
      assert tr.Step(j - 1, f);
      if tr.states[j].largestAck == tr.states[j - 1].largestAck {
        if tr.states[j].largestAck != -1 {
          var i: nat :| i < j - 1 && Acknowledges(tr, i, tr.states[j - 1].largestAck);
          assert i < j && Acknowledges(tr, i, tr.states[j].largestAck);
        }
      } else {
        assert Acknowledges(tr, j - 1, tr.states[j].largestAck);
      }
    }
  }

  /** Step `i` is an echo of the packet before `ack`, or gives up on everything up to `ack`. */
  predicate Acknowledges(tr: Trace, i: nat, ack: int) {
    && |tr.states| == |tr.steps| + 1 && i < |tr.steps| && RestsAt(tr, i)
    && ack == if tr.steps[i].In? then tr.steps[i].h.seqNum + 1 else |tr.states[i].sent| - 1
  }

  // ---------------------------------------------------------------- statistics

  /** Every packet acknowledged counts its payload once, and no delay is negative. */
  lemma {:induction false} StatsAgree(tr: Trace, f: Flow)
    requires tr.IsRun(f)
    ensures var a, b := tr.states[0].stats, tr.Last().stats;
      b.npkts >= a.npkts && b.nbytes - a.nbytes == PAYLOAD * (b.npkts - a.npkts) && b.delayAggr >= a.delayAggr
    decreases |tr.steps|
  {
    hide Inv, Phase, Charge, Between, Opened, Hears, Reset, Sender.MaySend;
    if tr.steps != [] {
      LastStep(tr, f);
      StatsAgree(tr.Before(|tr.steps| - 1), f);
    }
  }

  // ---------------------------------------------------------------- no flooding

  /** How often the loop has given up. */
  function GiveUps(tr: Trace): nat
    requires |tr.states| == |tr.steps| + 1
    decreases |tr.steps|
  {
    if tr.steps == [] then 0
    else GiveUps(tr.Before(|tr.steps| - 1)) + if GivesUpAt(tr, |tr.steps| - 1) then 1 else 0
  }

  /** `k` windows of `w` packets. */
  function Windows(k: int, w: real): real {
    k as real * w
  }

  lemma OneMoreWindow(k: int, w: real)
    ensures Windows(k + 1, w) == Windows(k, w) + w && Windows(0, w) == 0.0
    ensures w >= 0.0 && k >= 0 ==> Windows(k, w) >= 0.0
  {
  }

  /** The window never exceeds `cap`. */
  ghost predicate Capped(tr: Trace, cap: real) {
    forall s | s in tr.states :: s.ctl.steer.cwnd <= cap
  }

  lemma StepSendsAtMost(s: Sender, e: Happening, f: Flow, cap: real, k: nat)
    requires s.Sound(f) && s.May(e, f) && 2.0 <= s.ctl.steer.cwnd <= cap
    requires var w := cap + 1.0 + f.bn as real;
      s.largestAck as real <= Windows(k, w) && |s.sent| as real <= Windows(k + 1, w)
    ensures var w, s' := cap + 1.0 + f.bn as real, s.Do(e, f);
      var k' := if e.In? || (e.Look? && s.TimedOut(e.ts)) then k + 1 else k;
      s'.largestAck as real <= Windows(k', w) && |s'.sent| as real <= Windows(k' + 1, w)
  {
    hide Inv, Phase, Charge, Between, Opened, Hears, Reset, Windows, Sender.MaySend;
    var w := cap + 1.0 + f.bn as real;
    OneMoreWindow(k, w);
    OneMoreWindow(k + 1, w);
    if e.Out? {
      OutKeeps(s, f);
    }
  }

  /** Every two seconds the loop may give up once. */
  lemma {:induction false} GiveUpsTakeTime(tr: Trace, f: Flow)
    requires tr.IsRun(f)
    ensures 2000.0 * GiveUps(tr) as real <= tr.Last().lastAckTs - tr.states[0].lastAckTs
    decreases |tr.steps|
  {
    hide Inv, Phase, Charge, Between, Opened, Hears, Reset, Sender.MaySend;
    if tr.steps != [] {
      LastStep(tr, f);
      GiveUpsTakeTime(tr.Before(|tr.steps| - 1), f);
    }
  }

  /** However the network behaves, a run does not flood it: while the window stays within `cap`, there are
      at most `cap + 1 + bn` packets for the start, each echo and each time the loop has given up. */
  lemma {:induction false} SendsAtMost(tr: Trace, f: Flow, cap: real)
    requires tr.IsRun(f) && Capped(tr, cap) && f.bn >= 1
    ensures var k, w := tr.Last().stats.npkts - tr.states[0].stats.npkts + GiveUps(tr), cap + 1.0 + f.bn as real;
      k >= 0 && tr.Last().largestAck as real <= Windows(k, w) && |tr.Last().sent| as real <= Windows(k + 1, w)
    decreases |tr.steps|
  {
    hide Inv, Phase, Charge, Between, Opened, Hears, Reset, Sender.MaySend, Windows;
    var w := cap + 1.0 + f.bn as real;
    OneMoreWindow(0, w);
    assert tr.Last() in tr.states && tr.Last().ctl.steer.cwnd >= 2.0 by { PacingMatchesWindow(tr.Last().ctl); }
    if tr.steps != [] {
      var n := |tr.steps| - 1;
      LastStep(tr, f);
      SendsAtMost(tr.Before(n), f, cap);
      assert tr.states[n] in tr.states && tr.states[n].ctl.steer.cwnd >= 2.0 by {
        PacingMatchesWindow(tr.states[n].ctl);
      }
      var k := tr.states[n].stats.npkts - tr.states[0].stats.npkts + GiveUps(tr.Before(n));
      StepSendsAtMost(tr.states[n], tr.steps[n], f, cap, k);
    }
  }

  /** With a guard that never holds that is a bound by echoes and time alone. */
  lemma DeafSendsAtMost(tr: Trace, f: Flow)
    requires tr.IsRun(f) && f.bn >= 1 && f.guard.Deaf(f.bn)
    ensures var echoes := tr.Last().stats.npkts - tr.states[0].stats.npkts;
      && |tr.Last().sent| as real <= Windows(echoes + GiveUps(tr) + 1, NPROBE as real + 1.0 + f.bn as real)
      && 2000.0 * GiveUps(tr) as real <= tr.Last().now - tr.states[0].lastAckTs
  {
    hide Sender.Begun, Sender.May, Sender.Do, Windows, Inv, Phase, Between;
    forall s | s in tr.states
      ensures s.ctl.steer.cwnd <= NPROBE as real
    {
      var i :| 0 <= i < |tr.states| && tr.states[i] == s;
      DeafStaysUntouched(tr, f, i);
    }
    SendsAtMost(tr, f, NPROBE as real);
    GiveUpsTakeTime(tr, f);
  }
}
