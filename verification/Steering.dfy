/** How the controller moves its congestion window (vns/vns_eyenet.cc:66-118). */
module Steering {
  import opened Doubles

  const MAX_UPDATE_AMT := 0.006
  const UPDATE_AMT := 0.005

  /** The window `update_intersend` steers towards; DOUBLE_MAX stands for no bound at all. */
  datatype Target = Unbounded | Finite(t: real) {
    predicate Above(cwnd: real) {
      Unbounded? || cwnd < t
    }
  }

  /** How far a step of `amt` packets per delta moves the window. */
  function StepLength(amt: real, delta: real, cwnd: real): real
    requires delta > 0.0 && cwnd > 0.0
  {
    amt / (delta * cwnd)
  }

  function TargetFor(rtt: real, rttMin: real, delta: real): Target
    requires delta > 0.0
  {
    var qd := rtt - rttMin;
    if qd == 0.0 then Unbounded else Finite(rtt / (qd * delta))
  }

  /** The int32_t cast of a double that is in range. */
  function Truncate(x: real): int {
    if x >= 0.0 then x.Floor else -(-x).Floor
  }

  datatype SteerModel = SteerModel(doSs: bool, ss: bool, cwnd: real, updateAmt: real, updateDir: int,
                                   lastUpdateDir: int, lastUpdateTs: real)
  {
    /** Slow start, or the step-size rule of steady state. */
    function Prepared(target: Target, currRtt: real, ts: real): (s: SteerModel)
      ensures s.cwnd >= cwnd
    {
      if ss then
        if doSs || target == Unbounded then this.(cwnd := cwnd + 1.0, ss := target.Above(cwnd + 1.0)) else this
      else if lastUpdateTs + currRtt < ts then
        var amt :=
          if lastUpdateDir * updateDir <= 0 then updateAmt
          else if updateAmt < MAX_UPDATE_AMT then updateAmt + UPDATE_AMT
          else Truncate(updateAmt) as real * 2.0;
        this.(updateAmt := amt, lastUpdateTs := ts, updateDir := 0)
      else
        this.(updateAmt := 1.0, lastUpdateDir := -lastUpdateDir, lastUpdateTs := ts, updateDir := 0)
    }

    /** The step, halved when it is larger than cwnd * delta, and never below one packet. */
    function Amount(delta: real): real {
      Max(if updateAmt > cwnd * delta then updateAmt / 2.0 else updateAmt, 1.0)
    }

    /** One step towards the target. */
    function Stepped(target: Target, delta: real): (s: SteerModel)
      requires delta > 0.0 && cwnd > 0.0
      ensures s.cwnd >= 2.0
    {
      var amt := Amount(delta);
      if target.Above(cwnd) then
        this.(updateAmt := amt, updateDir := updateDir + 1, cwnd := Max(2.0, cwnd + StepLength(amt, delta, cwnd)))
      else
        this.(updateAmt := amt, updateDir := updateDir - 1, cwnd := Max(2.0, cwnd - StepLength(amt, delta, cwnd)))
    }

    function Update(target: Target, delta: real, currRtt: real, ts: real): (s: SteerModel)
      requires delta > 0.0 && cwnd > 0.0
      ensures s.cwnd >= 2.0 && s.doSs == doSs
    {
      Prepared(target, currRtt, ts).Stepped(target, delta)
    }

    /** The cut on loss. */
    function Cut(): (s: SteerModel)
      ensures s.cwnd >= 2.0
    {
      this.(cwnd := Max(2.0, cwnd * 0.8))
    }

    /** The state every run without slow-start switching stays in: still in slow start, step one. */
    predicate Steady() {
      !doSs && ss && updateAmt == 1.0 && cwnd >= 2.0
    }
  }

  // ---------------------------------------------------------------- the step size

  function Pow2(n: nat): real {
    if n == 0 then 1.0 else 2.0 * Pow2(n - 1)
  }

  ghost predicate IsPow2(x: real) {
    exists n: nat :: x == Pow2(n)
  }

  lemma {:induction false} Pow2Whole(n: nat)
    ensures Pow2(n) >= 1.0 && Truncate(Pow2(n)) as real == Pow2(n)
  {
    if n > 0 {
      Pow2Whole(n - 1);
      var k := Truncate(Pow2(n - 1));
      assert Pow2(n) == (2 * k) as real;
    }
  }

  lemma PreparedPow2(s: SteerModel, target: Target, currRtt: real, ts: real)
    requires IsPow2(s.updateAmt)
    ensures var p := s.Prepared(target, currRtt, ts);
      && IsPow2(p.updateAmt)
      && (p.updateAmt == s.updateAmt || p.updateAmt == 1.0 || p.updateAmt == 2.0 * s.updateAmt)
  {
    hide Target.Above;
    var n: nat :| s.updateAmt == Pow2(n);
    Pow2Whole(n);
    assert 1.0 == Pow2(0) && 2.0 * s.updateAmt == Pow2(n + 1);
  }

  lemma HalvedPow2(u: real, limit: real)
    requires IsPow2(u)
    ensures var a := Max(if u > limit then u / 2.0 else u, 1.0);
      IsPow2(a) && a >= 1.0 && (a <= limit || a == 1.0 || a == u / 2.0)
  {
    var n: nat :| u == Pow2(n);
    Pow2Whole(n);
    if n > 0 {
      Pow2Whole(n - 1);
      assert u / 2.0 == Pow2(n - 1);
    }
  }

  /** The step size stays a power of two, so the cast to int loses nothing, and it only grows as far
      as cwnd * delta allows. */
  lemma UpdateKeepsPow2(s: SteerModel, target: Target, delta: real, currRtt: real, ts: real)
    requires delta > 0.0 && s.cwnd >= 2.0 && IsPow2(s.updateAmt)
    ensures var s' := s.Update(target, delta, currRtt, ts);
      && IsPow2(s'.updateAmt) && s'.updateAmt >= 1.0
      && s'.updateAmt <= Max(s.updateAmt, s.Prepared(target, currRtt, ts).cwnd * delta)
  {
    hide StepLength, Target.Above, SteerModel.Prepared, IsPow2;
    PreparedPow2(s, target, currRtt, ts);
    var p := s.Prepared(target, currRtt, ts);
    HalvedPow2(p.updateAmt, p.cwnd * delta);
    AtLeastOne(s.updateAmt);
  }

  lemma AtLeastOne(u: real)
    requires IsPow2(u)
    ensures u >= 1.0
  {
    var n: nat :| u == Pow2(n);
    Pow2Whole(n);
  }

  /** What can happen to the window: a step towards a target, or a cut. */
  datatype Move = Steer(target: Target, delta: real, currRtt: real, ts: real) | Loss

  ghost predicate Positive(moves: seq<Move>) {
    forall a | a in moves && a.Steer? :: a.delta > 0.0
  }

  function Moved(s: SteerModel, moves: seq<Move>): (s': SteerModel)
    requires s.cwnd >= 2.0 && Positive(moves)
    ensures s'.cwnd >= 2.0
  {
    if moves == [] then s
    else
      var before := Moved(s, moves[..|moves| - 1]);
      match moves[|moves| - 1]
      case Steer(target, delta, currRtt, ts) =>
        assert moves[|moves| - 1] in moves;
        before.Update(target, delta, currRtt, ts)
      case Loss => before.Cut()
  }

  /** The largest cwnd * delta any step of the run was compared with, or 1 if that is larger. */
  function Peak(s: SteerModel, moves: seq<Move>): real
    requires s.cwnd >= 2.0 && Positive(moves)
  {
    if moves == [] then 1.0
    else
      var n := |moves| - 1;
      match moves[n]
      case Steer(target, delta, currRtt, ts) =>
        Max(Peak(s, moves[..n]), Moved(s, moves[..n]).Prepared(target, currRtt, ts).cwnd * delta)
      case Loss => Peak(s, moves[..n])
  }

  /** Over any run of steps and cuts from `initialize`, the step size is a power of two bounded by the
      largest cwnd * delta seen. */
  lemma {:induction false} StepSizeBounded(s: SteerModel, moves: seq<Move>)
    requires s.cwnd >= 2.0 && s.updateAmt == 1.0 && Positive(moves)
    ensures IsPow2(Moved(s, moves).updateAmt) && 1.0 <= Moved(s, moves).updateAmt <= Peak(s, moves)
  {
    hide SteerModel.Prepared, SteerModel.Stepped;
    if moves == [] {
      assert 1.0 == Pow2(0);
    } else {
      var n := |moves| - 1;
      StepSizeBounded(s, moves[..n]);
      if moves[n].Steer? {
        assert moves[n] in moves;
        UpdateKeepsPow2(Moved(s, moves[..n]), moves[n].target, moves[n].delta, moves[n].currRtt, moves[n].ts);
      }
    }
  }

  // ---------------------------------------------------------------- one update, in closed form

  /** What the step-size rule comes to. A step size that is a power of two is never below `MAX_UPDATE_AMT`, so
      the additive branch is dead: outside slow start the step doubles when updates more than a round trip
      apart agree in direction, and an update within a round trip of the last resets it to one and turns the
      direction it is compared with. */
  lemma UpdateIs(s: SteerModel, target: Target, delta: real, currRtt: real, ts: real)
    requires delta > 0.0 && s.cwnd >= 2.0 && IsPow2(s.updateAmt)
    ensures var s', quick := s.Update(target, delta, currRtt, ts), ts <= s.lastUpdateTs + currRtt;
      var w := if s.ss && (s.doSs || target.Unbounded?) then s.cwnd + 1.0 else s.cwnd;
      var up := target.Unbounded? || w < target.t;
      var amt := if s.ss then s.updateAmt else if quick then 1.0
                 else if s.lastUpdateDir * s.updateDir > 0 then 2.0 * s.updateAmt else s.updateAmt;
      && s'.updateAmt == Max(1.0, if amt > w * delta then amt / 2.0 else amt)
      && s'.cwnd == (if up then w + StepLength(s'.updateAmt, delta, w)
                     else Max(2.0, w - StepLength(s'.updateAmt, delta, w)))
      && s'.updateDir == (if s.ss then s.updateDir else 0) + (if up then 1 else -1)
      && s'.lastUpdateDir == (if !s.ss && quick then -s.lastUpdateDir else s.lastUpdateDir)
      && s'.lastUpdateTs == (if s.ss then s.lastUpdateTs else ts)
  {
    hide SteerModel.Prepared, StepLength;
    RuleIs(s, target, currRtt, ts);
    var p := s.Prepared(target, currRtt, ts);
    StepGrows(p.Amount(delta), delta, p.cwnd);
  }

  lemma RuleIs(s: SteerModel, target: Target, currRtt: real, ts: real)
    requires s.cwnd >= 2.0 && IsPow2(s.updateAmt)
    ensures var p, quick := s.Prepared(target, currRtt, ts), ts <= s.lastUpdateTs + currRtt;
      && p.cwnd == (if s.ss && (s.doSs || target.Unbounded?) then s.cwnd + 1.0 else s.cwnd)
      && p.updateAmt == (if s.ss then s.updateAmt else if quick then 1.0
                         else if s.lastUpdateDir * s.updateDir > 0 then 2.0 * s.updateAmt else s.updateAmt)
      && p.updateDir == (if s.ss then s.updateDir else 0)
      && p.lastUpdateDir == (if !s.ss && quick then -s.lastUpdateDir else s.lastUpdateDir)
      && p.lastUpdateTs == (if s.ss then s.lastUpdateTs else ts)
  {
    var n: nat :| s.updateAmt == Pow2(n);
    Pow2Whole(n);
  }

  /** A step of `amt` packets per delta, spread over the window. */
  lemma StepGrows(amt: real, delta: real, cwnd: real)
    requires amt >= 1.0 && delta > 0.0 && cwnd > 0.0
    ensures StepLength(amt, delta, cwnd) > 0.0 && StepLength(amt, delta, cwnd) == amt / (delta * cwnd)
  {
  }

  /** Slow start with no queueing delay: one packet, and a step on top, for every update. */
  lemma SlowStartGrows(s: SteerModel, delta: real, currRtt: real, ts: real)
    requires s.ss && delta > 0.0 && s.cwnd >= 2.0 && IsPow2(s.updateAmt)
    ensures var s' := s.Update(Unbounded, delta, currRtt, ts);
      && s'.ss && s'.cwnd == s.cwnd + 1.0 + StepLength(s'.updateAmt, delta, s.cwnd + 1.0) > s.cwnd + 1.0
      && (s.Steady() ==> s'.Steady() && s'.cwnd == s.cwnd + 1.0 + StepLength(1.0, delta, s.cwnd + 1.0))
  {
    hide SteerModel.Update, StepLength;
    UpdateIs(s, Unbounded, delta, currRtt, ts);
    SlowStartEnds(s, Unbounded, delta, currRtt, ts);
    var s' := s.Update(Unbounded, delta, currRtt, ts);
    StepGrows(s'.updateAmt, delta, s.cwnd + 1.0);
    if s.Steady() {
      SteadyUpdate(s, Unbounded, delta, currRtt, ts);
    }
  }

  /** `n` updates outside slow start, towards no bound, at these times. */
  function Climb(s: SteerModel, delta: real, currRtt: real, times: seq<real>): (s': SteerModel)
    requires delta > 0.0 && s.cwnd >= 2.0
    ensures s'.cwnd >= 2.0
  {
    if times == [] then s
    else
      var n := |times| - 1;
      Climb(s, delta, currRtt, times[..n]).Update(Unbounded, delta, currRtt, times[n])
  }

  ghost predicate Apart(from: real, gap: real, times: seq<real>) {
    times != [] ==>
      var n := |times| - 1;
      Apart(from, gap, times[..n]) && times[n] > (if n == 0 then from else times[n - 1]) + gap
  }

  /** The window speeds up: with updates more than a round trip apart, all upwards, the step size doubles
      every time, as long as it stays within cwnd * delta. */
  lemma {:induction false} StepDoubles(s: SteerModel, delta: real, currRtt: real, times: seq<real>)
    requires delta > 0.0 && s.cwnd >= 2.0 && IsPow2(s.updateAmt) && !s.ss && s.lastUpdateDir > 0 && s.updateDir > 0
    requires Apart(s.lastUpdateTs, currRtt, times) && Pow2(|times|) * s.updateAmt <= s.cwnd * delta
    ensures var s' := Climb(s, delta, currRtt, times);
      && s'.updateAmt == Pow2(|times|) * s.updateAmt && s'.cwnd >= s.cwnd && IsPow2(s'.updateAmt)
      && !s'.ss && s'.lastUpdateDir == s.lastUpdateDir && s'.updateDir > 0
      && s'.lastUpdateTs == (if times == [] then s.lastUpdateTs else times[|times| - 1])
    decreases |times|
  {
    hide SteerModel.Update;
    if times == [] {
      assert Pow2(0) == 1.0;
    } else {
      var n := |times| - 1;
      AtLeastOne(s.updateAmt);
      Pow2Whole(n);
      HalfIsLess(Pow2(n), s.updateAmt);
      StepDoubles(s, delta, currRtt, times[..n]);
      var before := Climb(s, delta, currRtt, times[..n]);
      DoublesOnce(before, delta, currRtt, times[n], Pow2(|times|) * s.updateAmt, s.cwnd);
    }
  }

  lemma HalfIsLess(p: real, u: real)
    requires p >= 0.0 && u >= 0.0
    ensures p * u <= (2.0 * p) * u == 2.0 * (p * u)
  {
  }

  lemma DoublesOnce(s: SteerModel, delta: real, currRtt: real, ts: real, amt: real, floor: real)
    requires delta > 0.0 && s.cwnd >= 2.0 && IsPow2(s.updateAmt) && !s.ss && s.lastUpdateDir > 0 && s.updateDir > 0
    requires ts > s.lastUpdateTs + currRtt && amt == 2.0 * s.updateAmt <= floor * delta && floor <= s.cwnd
    ensures var s' := s.Update(Unbounded, delta, currRtt, ts);
      && s'.updateAmt == amt && s'.cwnd >= s.cwnd && IsPow2(amt) && !s'.ss && s'.lastUpdateTs == ts
      && s'.lastUpdateDir == s.lastUpdateDir && s'.updateDir > 0
  {
    UpdateIs(s, Unbounded, delta, currRtt, ts);
    UpdateKeepsPow2(s, Unbounded, delta, currRtt, ts);
    AtLeastOne(s.updateAmt);
    SignAgrees(s.lastUpdateDir, s.updateDir);
    WiderLimit(floor, s.cwnd, delta);
    StepGrows(amt, delta, s.cwnd);
  }

  lemma SignAgrees(x: int, y: int)
    requires x > 0 && y > 0
    ensures x * y > 0
  {
  }

  lemma WiderLimit(a: real, b: real, delta: real)
    requires a <= b && delta > 0.0
    ensures a * delta <= b * delta
  {
  }

  // ---------------------------------------------------------------- convergence

  /** One steady step with delta = 1/2 and a finite target. */
  function Step(c: real, t: real): (c': real)
    requires c >= 2.0
    ensures c' >= 2.0
  {
    if c < t then c + 2.0 / c else Max(2.0, c - 2.0 / c)
  }

  /** An update ends slow start exactly when slow-start switching is on and the window reaches a finite
      target. */
  lemma SlowStartEnds(s: SteerModel, target: Target, delta: real, currRtt: real, ts: real)
    requires s.ss && delta > 0.0 && s.cwnd >= 2.0
    ensures !s.Update(target, delta, currRtt, ts).ss <==> s.doSs && target.Finite? && s.cwnd + 1.0 >= target.t
  {
  }

  /** Without it slow start lasts, with step size one, whatever delta is: an update moves the window by one
      packet per delta towards a finite target, and with delta 1/2 it is `Step`. */
  lemma SteadyUpdate(s: SteerModel, target: Target, delta: real, currRtt: real, ts: real)
    requires s.Steady() && delta > 0.0
    ensures var s' := s.Update(target, delta, currRtt, ts);
      && s'.Steady()
      && (target.Finite? ==>
            s'.cwnd == if s.cwnd < target.t then s.cwnd + StepLength(1.0, delta, s.cwnd)
                       else Max(2.0, s.cwnd - StepLength(1.0, delta, s.cwnd)))
      && (target.Finite? && delta == 0.5 ==> s'.cwnd == Step(s.cwnd, target.t))
  {
    assert delta == 0.5 ==> StepLength(1.0, delta, s.cwnd) == 2.0 / s.cwnd;
    assert StepLength(1.0, delta, s.cwnd) >= 0.0;
  }

  function Dist(x: real, y: real): real {
    if x < y then y - x else x - y
  }

  lemma Quotients(c: real, bound: real)
    requires c >= 2.0 && bound >= 2.0
    ensures 0.0 < 2.0 / c <= 1.0 && 0.0 < 2.0 / bound <= 1.0
    ensures c <= bound ==> 2.0 / c >= 2.0 / bound
  {
  }

  /** A move of size `q` from outside the band around the goal gets closer by `q`; a move from inside
      the band stays inside. */
  lemma MoveApproaches(c: real, t: real, q: real, r: real, c': real)
    requires c >= 2.0 && 0.0 < q <= 1.0 && r <= 1.0
    requires Dist(c, Max(2.0, t)) > 1.0 ==> q >= r
    requires c' == if c < t then c + q else Max(2.0, c - q)
    ensures Dist(c', Max(2.0, t)) <= Max(1.0, Dist(c, Max(2.0, t)) - r)
    ensures Dist(c', Max(2.0, t)) > 1.0 ==> c' <= Max(c, Max(2.0, t))
  {
  }

  function Trajectory(c: real, t: real, n: nat): (c': real)
    requires c >= 2.0
    ensures c' >= 2.0
  {
    if n == 0 then c else Step(Trajectory(c, t, n - 1), t)
  }

  /** The smallest move a window of at most `bound` can make. */
  function LeastMove(bound: real): (r: real)
    requires bound > 0.0
    ensures r > 0.0
  {
    2.0 / bound
  }

  /** `n` of them. */
  function Moves(n: nat, bound: real): real
    requires bound > 0.0
  {
    if n == 0 then 0.0 else Moves(n - 1, bound) + LeastMove(bound)
  }

  lemma StepApproaches(c: real, t: real, bound: real)
    requires c >= 2.0 && bound >= Max(2.0, t)
    requires Dist(c, Max(2.0, t)) > 1.0 ==> c <= bound
    ensures Dist(Step(c, t), Max(2.0, t)) <= Max(1.0, Dist(c, Max(2.0, t)) - LeastMove(bound))
    ensures Dist(Step(c, t), Max(2.0, t)) > 1.0 ==> Step(c, t) <= bound
  {
    Quotients(c, bound);
    MoveApproaches(c, t, 2.0 / c, 2.0 / bound, Step(c, t));
  }

  lemma {:induction false} TrajectoryApproaches(c: real, t: real, n: nat, bound: real)
    requires c >= 2.0 && bound == Max(c, Max(2.0, t))
    ensures Dist(Trajectory(c, t, n), Max(2.0, t)) <= Max(1.0, Dist(c, Max(2.0, t)) - Moves(n, bound))
    ensures Dist(Trajectory(c, t, n), Max(2.0, t)) > 1.0 ==> Trajectory(c, t, n) <= bound
  {
    hide Step, Dist, LeastMove;
    if n > 0 {
      TrajectoryApproaches(c, t, n - 1, bound);
      StepApproaches(Trajectory(c, t, n - 1), t, bound);
    } else {
      assert Trajectory(c, t, n) == c;
    }
  }

  lemma {:induction false} MovesAre(n: nat, bound: real)
    requires bound > 0.0
    ensures Moves(n, bound) == n as real * LeastMove(bound)
  {
    hide LeastMove;
    if n > 0 {
      MovesAre(n - 1, bound);
    }
  }

  lemma Enough(n: real, bound: real, d: real)
    requires bound > 0.0 && n >= bound * d / 2.0
    ensures n * LeastMove(bound) >= d
  {
  }

  /** A fixed finite target is approached to within one packet in at most c * |c0 - goal| / 2 steps,
      where c is the larger of the start and the goal, and the window never leaves that band. */
  lemma Converges(c: real, t: real, n: nat)
    requires c >= 2.0
    requires n as real >= Max(c, Max(2.0, t)) * Dist(c, Max(2.0, t)) / 2.0
    ensures Dist(Trajectory(c, t, n), Max(2.0, t)) <= 1.0
  {
    hide Trajectory, Dist, LeastMove;
    var bound := Max(c, Max(2.0, t));
    TrajectoryApproaches(c, t, n, bound);
    MovesAre(n, bound);
    Enough(n as real, bound, Dist(c, Max(2.0, t)));
  }
}
