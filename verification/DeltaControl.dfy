/** How the controller picks `delta` (vns/vns_eyenet.cc:120-155): a constant in one mode, additive
    increase and multiplicative decrease of 1/delta in the other. */
module DeltaControl {
  import opened Doubles

  datatype Utility = CONSTANT | AUTO | COOP
  datatype Operation = DEFAULT | TCP | LOSS

  const DEFAULT_DELTA := 0.5

  datatype DeltaModel = DeltaModel(utility: Utility, op: Operation, delta: real, lastUpdate: real, lastLoss: real) {

    /** Once an update has been recorded, delta lies in (0, 1/2]. */
    predicate Valid() {
      op != TCP && (lastUpdate != 0.0 ==> Settled())
    }

    predicate Settled() {
      0.0 < delta <= DEFAULT_DELTA
    }

    /** The operation in force during an update; `inMode` is the answer of `mode_eyenet`. */
    function Operating(inMode: bool): Operation {
      if utility == AUTO then (if inMode then DEFAULT else LOSS) else op
    }

    predicate Aimd(inMode: bool) {
      Operating(inMode) == LOSS || utility == COOP
    }

    /** The delta that an increase or decrease starts from. */
    function Base(): real {
      if lastUpdate == 0.0 then DEFAULT_DELTA else delta
    }

    /** The update doubles delta, halving 1/delta. */
    predicate Backs(loss: bool, rtt: real, ts: real, inMode: bool) {
      Aimd(inMode) && loss && lastLoss + rtt < ts
    }

    /** The update adds one to 1/delta. */
    predicate Grows(loss: bool, rtt: real, ts: real, inMode: bool) {
      Aimd(inMode) && !Backs(loss, rtt, ts, inMode) && lastUpdate + rtt < ts
    }

    function Update(loss: bool, rtt: real, ts: real, inMode: bool): (d: DeltaModel)
      requires Valid()
      ensures d.Valid() && d.Settled() && d.utility == utility && (d.lastUpdate == lastUpdate || d.lastUpdate == ts)
      ensures d.op == Operating(inMode)
    {
      var d := this.(op := Operating(inMode));
      if !Aimd(inMode) then
        if lastUpdate == 0.0 || lastLoss + rtt < ts then
          d.(delta := Min(if delta < DEFAULT_DELTA then DEFAULT_DELTA else delta, DEFAULT_DELTA), lastUpdate := ts)
        else d
      else if Backs(loss, rtt, ts, inMode) then
        d.(delta := Min(2.0 * Base(), DEFAULT_DELTA), lastLoss := ts)
      else if Grows(loss, rtt, ts, inMode) then
        d.(delta := Min(1.0 / (1.0 / Base() + 1.0), DEFAULT_DELTA), lastUpdate := ts)
      else
        d.(delta := Min(Base(), DEFAULT_DELTA))
    }
  }

  function Inverse(x: real): real
    requires x > 0.0
  {
    1.0 / x
  }

  lemma ConstantStays(d: DeltaModel, loss: bool, rtt: real, ts: real, inMode: bool)
    requires d.Valid() && d.utility == CONSTANT && d.op == DEFAULT && d.delta == DEFAULT_DELTA
    ensures d.Update(loss, rtt, ts, inMode).delta == DEFAULT_DELTA
  {
  }

  /** Additive increase, multiplicative decrease on 1/delta, from the state the update starts in: in the
      cooperative mode always, in the automatic one while the mode test fails. Otherwise delta is the default,
      at once and then a round trip after every loss. */
  lemma UpdateIsAimd(d: DeltaModel, loss: bool, rtt: real, ts: real, inMode: bool)
    requires d.Valid()
    ensures var d' := d.Update(loss, rtt, ts, inMode);
      var competes := d.utility == COOP || (if d.utility == AUTO then !inMode else d.op == LOSS);
      var backs := loss && d.lastLoss + rtt < ts;
      var grows := !backs && d.lastUpdate + rtt < ts;
      var defaults := d.lastUpdate == 0.0 || d.lastLoss + rtt < ts;
      var inv := if d.lastUpdate == 0.0 then 2.0 else Inverse(d.delta);
      if competes then
        && Inverse(d'.delta) == (if backs then Max(2.0, inv / 2.0) else if grows then inv + 1.0 else inv)
        && d'.lastLoss == (if backs then ts else d.lastLoss)
        && d'.lastUpdate == (if grows then ts else d.lastUpdate)
      else
        && d'.delta == (if defaults then 0.5 else d.delta)
        && d'.lastLoss == d.lastLoss && d'.lastUpdate == (if defaults then ts else d.lastUpdate)
  {
  }

  /** What one acknowledgement does with delta: an update for its sample, and one more at once if it gave
      packets up. */
  function Acked(d: DeltaModel, rtt: real, ts: real, inMode: bool, lost: bool): (d': DeltaModel)
    requires d.Valid()
    ensures d'.Valid()
  {
    var sampled := d.Update(false, rtt, ts, inMode);
    if lost then sampled.Update(true, 0.0, ts, inMode) else sampled
  }

  /** While it competes, an acknowledgement adds one to 1/delta a round trip after the last time, and losses
      halve the result, though not twice at one time: losses found at the time of the last ones count as
      growth. Otherwise delta returns to the default, unless losses are less than a round trip old. */
  lemma AckedIs(d: DeltaModel, rtt: real, ts: real, inMode: bool, lost: bool)
    requires d.Valid() && (d.op == LOSS ==> d.utility == AUTO) && rtt >= 0.0
    requires d.lastUpdate >= 0.0
    ensures var d' := Acked(d, rtt, ts, inMode, lost);
      var grows := d.lastUpdate + rtt < ts;
      var inv := (if d.lastUpdate == 0.0 then 2.0 else Inverse(d.delta)) + if grows then 1.0 else 0.0;
      if d.utility == COOP || (d.utility == AUTO && !inMode) then
        Inverse(d'.delta) ==
          if !lost then inv
          else if d.lastLoss < ts then Max(2.0, inv / 2.0)
          else if !grows && d.lastUpdate < ts then inv + 1.0
          else inv
      else
        d'.delta == if d.lastUpdate == 0.0 || d.lastLoss + rtt < ts || (lost && d.lastLoss < ts) then 0.5 else d.delta
  {
    hide DeltaModel.Update, Inverse;
    UpdateIsAimd(d, false, rtt, ts, inMode);
    UpdateKeepsMode(d, false, rtt, ts, inMode);
    var s := d.Update(false, rtt, ts, inMode);
    UpdateIsAimd(s, true, 0.0, ts, inMode);
  }

  lemma UpdateKeepsMode(d: DeltaModel, loss: bool, rtt: real, ts: real, inMode: bool)
    requires d.Valid()
    ensures var d' := d.Update(loss, rtt, ts, inMode);
      d'.utility == d.utility && d'.op == if d.utility == AUTO then (if inMode then DEFAULT else LOSS) else d.op
  {
  }

  lemma BranchIs(d: DeltaModel, loss: bool, rtt: real, ts: real, inMode: bool)
    requires d.Valid()
    ensures var d' := d.Update(loss, rtt, ts, inMode);
      var inv := 1.0 / d.Base();
      if d.Grows(loss, rtt, ts, inMode) then 1.0 / d'.delta == inv + 1.0
      else if d.Backs(loss, rtt, ts, inMode) then 1.0 / d'.delta == Max(1.0 / DEFAULT_DELTA, inv / 2.0)
      else if d.Aimd(inMode) then 1.0 / d'.delta == inv
      else d'.delta == DEFAULT_DELTA || d' == d.(op := DEFAULT)
  {
  }

  lemma Reciprocals(x: real, y: real)
    requires 0.0 < x <= y
    ensures 0.0 < 1.0 / y <= 1.0 / x
  {
  }

  datatype Call = Call(loss: bool, rtt: real, ts: real, inMode: bool)

  function Updated(d: DeltaModel, calls: seq<Call>): (d': DeltaModel)
    requires d.Valid()
    ensures d'.Valid()
  {
    if calls == [] then d
    else
      var c := calls[|calls| - 1];
      Updated(d, calls[..|calls| - 1]).Update(c.loss, c.rtt, c.ts, c.inMode)
  }

  /** How many of the calls add one to 1/delta. */
  function Growths(d: DeltaModel, calls: seq<Call>): nat
    requires d.Valid()
  {
    if calls == [] then 0
    else
      var c := calls[|calls| - 1];
      Growths(d, calls[..|calls| - 1]) +
        if Updated(d, calls[..|calls| - 1]).Grows(c.loss, c.rtt, c.ts, c.inMode) then 1 else 0
  }

  /** Over any run of at least one update, in any mode, 1/delta is at least 1/default_delta and at
      most where it started, which is 1/default_delta after `initialize`, plus the number of growth
      steps. */
  lemma {:induction false} InverseDeltaBounded(d: DeltaModel, calls: seq<Call>)
    requires d.Valid() && calls != []
    ensures Updated(d, calls).Settled()
    ensures 1.0 / DEFAULT_DELTA <= 1.0 / Updated(d, calls).delta <= 1.0 / d.Base() + Growths(d, calls) as real
    ensures d.lastUpdate == 0.0 ==> 1.0 / d.Base() == 1.0 / DEFAULT_DELTA
  {
    var n := |calls| - 1;
    var c, before := calls[n], Updated(d, calls[..n]);
    if n > 0 {
      InverseDeltaBounded(d, calls[..n]);
    }
    Reciprocals(d.Base(), DEFAULT_DELTA);
    Reciprocals(Updated(d, calls).delta, DEFAULT_DELTA);
    BranchIs(before, c.loss, c.rtt, c.ts, c.inMode);
  }
}
