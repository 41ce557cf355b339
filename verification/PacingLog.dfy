/** What a log of the packets one `send_data` run puts on the wire must look like, and what that means
    for the run as a whole (vns/vns_transport.hh:164-208). */
module PacingLog {
  import opened Division

  /** One packet: its sequence number, the clock reading it was sent at, and the largest acknowledgement,
      window, pacing interval and pacing clock it was sent under. */
  datatype Shot = Shot(seqNum: int, ts: real, largestAck: int, cwnd: real, intersend: real, lastSTs: real)

  /** What `n` packets charge. */
  function Charge(n: int, intersend: real): real {
    intersend * n as real
  }

  lemma ChargeStep(n: int, intersend: real)
    ensures Charge(n + 1, intersend) == Charge(n, intersend) + intersend
    ensures Charge(0, intersend) == 0.0 && Charge(1, intersend) == intersend
  {
  }

  /** A train may open: there is room in the window, and the pacing clock is a whole train behind. */
  predicate Opens(s: Shot, bn: int) {
    && s.seqNum as real < s.largestAck as real + s.cwnd + 1.0
    && s.lastSTs + Charge(bn, s.intersend) <= s.ts
  }

  /** The packet continues the train of the packet before it. */
  predicate Continues(p: Shot, s: Shot) {
    s == p.(seqNum := p.seqNum + 1, lastSTs := p.lastSTs + p.intersend)
  }

  predicate Follows(p: Shot, s: Shot, bn: int)
    requires bn >= 1 && p.seqNum >= 0
  {
    && s.seqNum == p.seqNum + 1
    && s.ts >= p.ts && s.lastSTs >= p.lastSTs + p.intersend
    && (if Phase(s.seqNum, bn) == 0 then Opens(s, bn) else Continues(p, s))
  }

  ghost predicate WellPaced(log: seq<Shot>, bn: int, start: real)
    requires bn >= 1
  {
    log != [] ==>
      var n := |log| - 1;
      && WellPaced(log[..n], bn, start)
      && log[n].intersend >= 0.0 && log[n].seqNum == n
      && (if n == 0 then Opens(log[0], bn) && log[0].lastSTs >= start
          else Follows(log[n - 1], log[n], bn))
  }

  /** Whatever is sent next starts from here: the log is well paced, and the pacing clock has been
      charged for all of it. */
  ghost predicate Resumes(log: seq<Shot>, bn: int, start: real, lastSTs: real, now: real)
    requires bn >= 1
  {
    && WellPaced(log, bn, start) && start <= lastSTs
    && (log != [] ==> var p := log[|log| - 1]; p.lastSTs + p.intersend <= lastSTs && p.ts <= now)
  }

  lemma NothingSent(bn: int, start: real, now: real)
    requires bn >= 1
    ensures Resumes([], bn, start, start, now)
  {
  }

  lemma ResumesLater(log: seq<Shot>, bn: int, start: real, a: real, now: real, a': real, now': real)
    requires bn >= 1 && Resumes(log, bn, start, a, now) && a <= a' && now <= now'
    ensures Resumes(log, bn, start, a', now')
  {
  }

  /** The train the log ends in is still open: the next packet continues it. */
  ghost predicate InTrain(log: seq<Shot>, s: Shot) {
    log != [] && Continues(log[|log| - 1], s)
  }

  lemma LogGrows(log: seq<Shot>, s: Shot, bn: int, start: real)
    requires bn >= 1 && Resumes(log, bn, start, s.lastSTs, s.ts)
    requires s.seqNum == |log| && s.intersend >= 0.0
    requires if Phase(|log|, bn) == 0 then Opens(s, bn) else InTrain(log, s)
    ensures Resumes(log + [s], bn, start, s.lastSTs + s.intersend, s.ts)
  {
  }

  /** The sum of the pacing intervals charged. */
  function Charged(log: seq<Shot>): real {
    if log == [] then 0.0 else Charged(log[..|log| - 1]) + log[|log| - 1].intersend
  }

  lemma {:induction false} PrefixPaced(log: seq<Shot>, bn: int, start: real, i: nat)
    requires bn >= 1 && WellPaced(log, bn, start) && i <= |log|
    ensures WellPaced(log[..i], bn, start)
    decreases |log| - i
  {
    if i == |log| {
      assert log[..i] == log;
    } else {
      PrefixPaced(log, bn, start, i + 1);
      assert log[..i + 1][..i] == log[..i];
    }
  }

  /** Pacing: the intervals charged so far fit between the start and the pacing clock. */
  lemma {:induction false} ChargesFit(log: seq<Shot>, bn: int, start: real)
    requires bn >= 1 && WellPaced(log, bn, start) && log != []
    ensures var s := log[|log| - 1];
      Charged(log) <= s.lastSTs + s.intersend - start
  {
    var n := |log| - 1;
    if n == 0 {
      assert log[..0] == [];
    } else {
      ChargesFit(log[..n], bn, start);
    }
  }

  /** Inside a train the pacing clock plus what the rest of the train will charge does not pass the
      clock reading the train was opened at. */
  lemma {:induction false} RestOfTrainFits(log: seq<Shot>, bn: int, start: real)
    requires bn >= 1 && WellPaced(log, bn, start) && log != []
    ensures var s := log[|log| - 1];
      s.lastSTs + Charge(bn - Phase(|log| - 1, bn), s.intersend) <= s.ts
  {
    hide Phase, Charge;
    var n := |log| - 1;
    FirstPhase(bn);
    if Phase(n, bn) != 0 {
      RestOfTrainFits(log[..n], bn, start);
      NextPhase(n - 1, bn);
      ChargeStep(bn - Phase(n, bn), log[n].intersend);
    }
  }

  /** When a train is complete, everything charged since the start fits into the time elapsed. */
  lemma ChargesFitElapsedTime(log: seq<Shot>, bn: int, start: real, j: nat)
    requires bn >= 1 && WellPaced(log, bn, start)
    requires 0 < j <= |log| && Phase(j, bn) == 0
    ensures Charged(log[..j]) <= log[j - 1].ts - start
  {
    hide Phase, Charge;
    PrefixPaced(log, bn, start, j);
    var done := log[..j];
    ChargesFit(done, bn, start);
    RestOfTrainFits(done, bn, start);
    NextPhase(j - 1, bn);
    ChargeStep(0, done[j - 1].intersend);
  }

  /** Every train opens inside the window, and no packet of it is a whole train beyond. */
  lemma {:induction false} StaysInWindow(log: seq<Shot>, bn: int, start: real, i: nat)
    requires bn >= 1 && WellPaced(log, bn, start) && i < |log|
    ensures var s := log[i];
      && s.seqNum == i
      && (i - Phase(i, bn)) as real < s.largestAck as real + s.cwnd + 1.0
      && (i + 1 - s.largestAck) as real < s.cwnd + 1.0 + bn as real
  {
    hide Phase, Charge;
    PrefixPaced(log, bn, start, i + 1);
    var upTo := log[..i + 1];
    assert upTo[i] == log[i] && upTo[..i] == log[..i];
    FirstPhase(bn);
    if Phase(i, bn) != 0 {
      StaysInWindow(log, bn, start, i - 1);
      assert upTo[i - 1] == log[i - 1];
      NextPhase(i - 1, bn);
    }
  }

  /** Sent under a window of `cwnd`, packet `i` is less than a whole train beyond it. */
  predicate WithinTrain(s: Shot, i: int, bn: int) {
    (i + 1 - s.largestAck) as real < s.cwnd + 1.0 + bn as real
  }

  /** A run that ends between trains: the charges of all its packets fit into the time to the last one,
      and every packet was sent within a train of the window. */
  lemma RunIsPaced(log: seq<Shot>, bn: int, start: real)
    requires bn >= 1 && WellPaced(log, bn, start) && Phase(|log|, bn) == 0
    ensures log != [] ==> Charged(log) <= log[|log| - 1].ts - start
    ensures forall i | 0 <= i < |log| :: WithinTrain(log[i], i, bn)
  {
    hide Phase, WellPaced;
    if log != [] {
      ChargesFitElapsedTime(log, bn, start, |log|);
      assert log[..|log|] == log;
    }
    forall i | 0 <= i < |log|
      ensures WithinTrain(log[i], i, bn)
    {
      StaysInWindow(log, bn, start, i);
    }
  }

  // ---------------------------------------------------------------- inside the inner loop

  /** How many trains the first `k` packets have begun. */
  function Trains(k: int, bn: int): int
    requires k >= 0 && bn >= 1
  {
    if Phase(k, bn) == 0 then k / bn else k / bn + 1
  }

  /** Between two packets of the inner loop: a train that is open began inside the window, and the pacing
      clock has room for the rest of it. */
  ghost predicate Between(k: int, bn: int, room: real, lastSTs: real, pace: real, now: real)
    requires k >= 0 && bn >= 1
  {
    var p := Phase(k, bn);
    if p == 0 then lastSTs <= now
    else (k - p) as real < room && lastSTs + Charge(bn - p, pace) <= now
  }

  /** No packet of a train that began inside the window reaches this far. */
  function Limit(room: real, bn: int): int {
    room.Floor + 1 + bn
  }

  lemma BetweenStep(k: int, bn: int, room: real, lastSTs: real, pace: real, now: real)
    requires k >= 0 && bn >= 1 && Between(k, bn, room, lastSTs, pace, now)
    requires Phase(k, bn) == 0 ==> k as real < room && lastSTs + Charge(bn, pace) <= now
    ensures Between(k + 1, bn, room, lastSTs + pace, pace, now)
    ensures k < Limit(room, bn) && (k + 1) as real < room + bn as real
    ensures Trains(k + 1, bn) == (if Phase(k, bn) == 0 then k / bn + 1 else Trains(k, bn))
  {
    hide Phase, Charge;
    NextPhase(k, bn);
    ChargeStep(bn - Phase(k, bn) - 1, pace);
  }
}
