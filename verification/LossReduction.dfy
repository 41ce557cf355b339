/** `loss_reduce` (vns/vns_utils.cc:163-185): decides when losses cut the congestion window.

    `LossModel` remembers whether each packet since the last reset was lost; the class keeps two
    counters and divides them as the source does, in integers. */
module LossReduction {

  /** `flags[i]` says whether the i-th update since the last reset was a loss. */
  datatype LossModel = LossModel(flags: seq<bool>, lastWin: real) {

    predicate Expired(ts: real, rtt: real) {
      ts > lastWin + 2.0 * rtt
    }

    function Update(loss: bool, ts: real, rtt: real): LossModel {
      if Resets(ts, rtt) then LossModel([], ts) else LossModel(flags + [loss], lastWin)
    }

    /** An update asks for a cut when the window has expired after more than 20 updates, every one
        of them a loss. */
    predicate Cuts(loss: bool, ts: real, rtt: real) {
      Expired(ts, rtt) && |flags| >= 20 && loss && false !in flags
    }

    /** Losses and updates since the last reset, with this update. */
    function LossRate(loss: bool): real {
      Count(flags + [loss]) as real / (|flags| + 1) as real
    }

    /** The rule the source spells out, with the division taken as one of reals. */
    predicate Intended(loss: bool, ts: real, rtt: real) {
      Expired(ts, rtt) && |flags| >= 20 && LossRate(loss) > 0.3
    }

    /** The update starts a new window. */
    predicate Resets(ts: real, rtt: real) {
      Expired(ts, rtt) && |flags| >= 20
    }

    /** How many of `n` losses in a row, at one time, start a new window. */
    function LossResets(n: nat, ts: real, rtt: real): nat {
      if n == 0 then 0
      else LossResets(n - 1, ts, rtt) + if Losses(n - 1, ts, rtt).Resets(ts, rtt) then 1 else 0
    }

    /** How many of the updates of one `on_ack` do. */
    function AckedResets(n: nat, ts: real, rtt: real): nat {
      LossResets(n, ts, rtt) + if Losses(n, ts, rtt).Resets(ts, rtt) then 1 else 0
    }

    /** `n` losses in a row, at one time. */
    function Losses(n: nat, ts: real, rtt: real): LossModel {
      if n == 0 then this else Losses(n - 1, ts, rtt).Update(true, ts, rtt)
    }

    /** One of `n` losses in a row asks for a cut. */
    predicate LossesCut(n: nat, ts: real, rtt: real) {
      n > 0 && (LossesCut(n - 1, ts, rtt) || Losses(n - 1, ts, rtt).Cuts(true, ts, rtt))
    }

    /** What one `on_ack` does: every loss it walks over, then the packet it acknowledges. */
    function Acked(n: nat, ts: real, rtt: real): LossModel {
      Losses(n, ts, rtt).Update(false, ts, rtt)
    }

    /** The last update since the last reset was not a loss. */
    predicate EndsDelivered() {
      flags == [] || !flags[|flags| - 1]
    }
  }

  const FRESH_LOSS := LossModel([], 0.0)

  function Count(flags: seq<bool>): (n: nat)
    ensures n <= |flags|
  {
    if flags == [] then 0
    else Count(flags[..|flags| - 1]) + if flags[|flags| - 1] then 1 else 0
  }

  lemma {:induction false} CountsAll(flags: seq<bool>)
    ensures Count(flags) == |flags| <==> false !in flags
  {
    if flags != [] {
      var n := |flags| - 1;
      CountsAll(flags[..n]);
      assert flags == flags[..n] + [flags[n]];
    }
  }

  lemma CountPush(flags: seq<bool>, loss: bool)
    ensures Count(flags + [loss]) == Count(flags) + if loss then 1 else 0
    ensures Count(flags + [loss]) == |flags| + 1 <==> loss && false !in flags
  {
    assert (flags + [loss])[..|flags|] == flags;
    CountsAll(flags + [loss]);
  }

  lemma Quotient(n: int, d: int)
    requires 0 <= n <= d && d > 0
    ensures n / d == if n == d then 1 else 0
  {
  }

  lemma RateBelowOne(n: int, d: int)
    requires 0 <= n <= d && d > 0
    ensures n as real / d as real <= 1.0
    ensures n as real / d as real == 1.0 <==> n == d
  {
  }

  /** The integer division agrees with the rule spelled out except when the decision falls due with a
      loss rate between 0.3 and 1. */
  lemma CutsAsIntendedIff(m: LossModel, loss: bool, ts: real, rtt: real)
    ensures (m.Cuts(loss, ts, rtt) <==> m.Intended(loss, ts, rtt))
      <==> !(m.Expired(ts, rtt) && |m.flags| >= 20 && 0.3 < m.LossRate(loss) < 1.0)
  {
    CountPush(m.flags, loss);
    RateBelowOne(Count(m.flags + [loss]), |m.flags| + 1);
  }

  lemma {:induction false} CountSame(n: nat, loss: bool)
    ensures Count(seq(n, _ => loss)) == if loss then n else 0
  {
    if n > 0 {
      CountSame(n - 1, loss);
      assert seq(n, _ => loss)[..n - 1] == seq(n - 1, _ => loss);
    }
  }

  /** Twenty losses and then a delivered packet: 95% lost, and no cut. */
  lemma TwentyOf21DoNotCut()
    ensures var m := LossModel(seq(20, _ => true), 0.0);
      m.LossRate(false) > 0.95 && m.Intended(false, 1.0, 0.1) && !m.Cuts(false, 1.0, 0.1)
  {
    CountSame(20, true);
    CountPush(seq(20, _ => true), false);
  }

  lemma {:induction false} LossResetsOnce(m: LossModel, n: nat, ts: real, rtt: real)
    requires rtt >= 0.0
    ensures m.LossResets(n, ts, rtt) <= 1
    ensures m.LossResets(n, ts, rtt) == 1 ==> m.Losses(n, ts, rtt).lastWin == ts
  {
    if n > 0 {
      LossResetsOnce(m, n - 1, ts, rtt);
    }
  }

  /** However many losses an acknowledgement walks over, the counters are reset at most once. */
  lemma AckedResetsOnce(m: LossModel, n: nat, ts: real, rtt: real)
    requires rtt >= 0.0
    ensures m.AckedResets(n, ts, rtt) <= 1
  {
    LossResetsOnce(m, n, ts, rtt);
  }

  /** In closed form: `n` losses at one time reset the window at most once, on the update that makes
      it more than 20 long, and the flags left are those walked after that. */
  lemma {:induction false} LossesAre(m: LossModel, n: nat, ts: real, rtt: real)
    requires rtt >= 0.0
    ensures var m' := m.Losses(n, ts, rtt);
      if m.Expired(ts, rtt) && |m.flags| + n > 20 && n > 0 then
        m'.lastWin == ts && |m'.flags| == n - (if |m.flags| > 20 then 1 else 21 - |m.flags|)
      else
        m'.lastWin == m.lastWin && m'.flags == m.flags + seq(n, i => true)
    ensures m.LossesCut(n, ts, rtt) <==>
      n > 0 && m.Expired(ts, rtt) && |m.flags| + n > 20 && false !in m.flags
  {
    if n == 0 {
      assert m.flags + seq(n, i => true) == m.flags;
    } else {
      LossesAre(m, n - 1, ts, rtt);
      var before := m.Losses(n - 1, ts, rtt);
      if !(m.Expired(ts, rtt) && |m.flags| + n - 1 > 20 && n > 1) {
        var walked := m.flags + seq(n - 1, i => true);
        assert before.flags == walked;
        assert walked + [true] == m.flags + seq(n, i => true);
        assert false in walked <==> false in m.flags;
      }
    }
  }

  lemma LossesStep(m: LossModel, n: nat, ts: real, rtt: real)
    ensures m.Losses(n + 1, ts, rtt) == m.Losses(n, ts, rtt).Update(true, ts, rtt)
    ensures m.LossesCut(n + 1, ts, rtt) <==> m.LossesCut(n, ts, rtt) || m.Losses(n, ts, rtt).Cuts(true, ts, rtt)
    ensures m.Losses(0, ts, rtt) == m && !m.LossesCut(0, ts, rtt)
  {
  }

  /** Since every acknowledgement ends with a packet that was delivered, the integer division leaves
      one way to a cut: the window is empty when the acknowledgement arrives, has expired, and this
      one acknowledgement walks over more than 20 losses. */
  lemma CutNeedsBurst(m: LossModel, n: nat, ts: real, rtt: real)
    requires rtt >= 0.0 && m.EndsDelivered()
    ensures m.LossesCut(n, ts, rtt) <==> m.flags == [] && n > 20 && m.Expired(ts, rtt)
    ensures !m.Losses(n, ts, rtt).Cuts(false, ts, rtt)
    ensures m.Acked(n, ts, rtt).EndsDelivered()
  {
    LossesAre(m, n, ts, rtt);
    if m.flags != [] {
      assert m.flags[|m.flags| - 1] in m.flags;
    }
  }

  /** A cut moves the start of the window to the time of the cut, and nothing moves it back. */
  lemma WindowStartAdvances(m: LossModel, n: nat, ts: real, rtt: real)
    requires rtt >= 0.0 && m.lastWin <= ts
    ensures m.lastWin <= m.Acked(n, ts, rtt).lastWin <= ts
    ensures m.LossesCut(n, ts, rtt) ==> m.Acked(n, ts, rtt).lastWin == ts > m.lastWin + 2.0 * rtt
  {
    LossesAre(m, n, ts, rtt);
  }

  class LossReduce {
    var nloss: int
    var npkts: int
    var lastWinTs: real
    ghost var model: LossModel

    ghost predicate Valid()
      reads this
    {
      npkts == |model.flags| && nloss == Count(model.flags) && lastWinTs == model.lastWin
    }

    constructor ()
      ensures Valid() && model == FRESH_LOSS
    {
      nloss, npkts, lastWinTs, model := 0, 0, 0.0, FRESH_LOSS;
    }

    method Update(loss: bool, currTs: real, rtt: real) returns (reduce: bool)
      requires Valid()
      modifies this
      ensures Valid() && model == old(model).Update(loss, currTs, rtt)
      ensures reduce == old(model).Cuts(loss, currTs, rtt)
    {
      CountPush(model.flags, loss);
      model := model.Update(loss, currTs, rtt);
      if loss {
        nloss := nloss + 1;
      }
      npkts := npkts + 1;
      if currTs > lastWinTs + 2.0 * rtt && npkts > 20 {
        var lossRate := 1.0 * (nloss / npkts) as real;
        Quotient(nloss, npkts);
        lastWinTs, nloss, npkts := currTs, 0, 0;
        if lossRate > 0.3 {
          return true;
        }
      }
      return false;
    }

    method Clear()
      modifies this
      ensures Valid() && model == FRESH_LOSS
    {
      nloss, npkts, lastWinTs, model := 0, 0, 0.0, FRESH_LOSS;
    }
  }
}
