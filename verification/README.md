# TCP Eyenet, modelled and proved in Dafny

This project models the delay-based congestion controller of TCP Eyenet, the sender that drives it, the
`ttest` traffic tester and the two plotting scripts that compute something, and proves what they keep over
every run.

Where the program changes things step by step the model is a class with the program's fields, and each of its
methods is proved against a specification over plain values; lemmas about the specification then speak of whole
runs. Doubles are exact reals, except for the two limits the source names. The clock, the network, the sockets
and the allocator decide what they like at every step (`:= *`, parameters, or a schedule), so a result holds
for every behaviour of theirs.

| file | models |
|---|---|
| `SlidingWindow.dfy`, `RttWindows.dfy` | the windowed extremum and the four RTT windows, against a brute-force reference |
| `LossReduction.dfy`, `DeltaControl.dfy`, `Steering.dfy`, `PacketBooks.dfy` | the parts of the controller, each as functions on values with its laws |
| `Controller.dfy`, `ControllerRuns.dfy`, `ControllerTheorems.dfy` | the controller as one state machine, its invariant, and what follows for all runs |
| `ControllerExamples.dfy` | runs that reach two cuts, growth without a queue, and convergence |
| `Eyenet.dfy` | the controller as the object the source writes, refining the state machine |
| `Division.dfy`, `PacingLog.dfy`, `SenderRuns.dfy`, `SenderTheorems.dfy` | the paced, windowed sender loop as one state machine over the controller's, and what follows for all runs |
| `Transport.dfy` | the loop as the object the source writes, taking exactly those steps over a clock and a network |
| `DataRank.dfy` | the order statistic over a rotating queue |
| `TrafficRate.dfy`, `TrafficSender.dfy` | the traffic tester's rate calculation and its catch-up loop |
| `ReceiverIndex.dfy` | the traffic tester's hashed connection index under interleaved workers |
| `StartUp.dfy` | how the tester's main thread starts, releases and stops its workers |
| `SignalDelay.dfy`, `JainIndex.dfy`, `ThroughputGraph.dfy` | the signal-delay fill, the fairness index and the packet buckets of the scripts |
| `Doubles.dfy`, `IntSets.dfy`, `Options.dfy` | shared small pieces |

## What the proofs say about the code

Most of the laws hold as intended. These do not, and each has its exact condition in the table below:

* The guard of the ack arm, `(ack_hdr.seq_num - 1) && bn_train == 0`, is false whenever `bn_train >= 1`. As
  written the controller never hears of an acknowledgement: the window stays at ten packets and nothing is paced
  (`SendDataAsWritten`). The sender loop is therefore proved for every guard. Under the guard the send side
  suggests, the first packet of each train, the train settled is the right one if and only if trains are one
  packet long (`PerTrainGuardSettles`).
* `nloss / npkts` is an integer division, so the 30% threshold is really 100%: the decision is the one spelled out
  except when it falls due with a loss rate above 0.3 and below 1 (`CutsAsIntendedIff`); 20 losses in 21 updates do
  not cut (`TwentyOf21DoNotCut`). Since every acknowledgement ends with a delivered packet, the window is cut if and
  only if no update has been counted since the last reset, the loss window has expired, and one acknowledgement
  gives up more than 20 packets (`CutsOnlyOnBursts`), which does happen (`CutIsReachable`).
* A max window starts from the smallest positive double, so its value is the maximum of the live samples if and
  only if some sample since the last clear reached that value (`ValueIsExtremum`).
* Slow start ends with an acknowledgement if and only if `do_ss` is set, 19 acknowledgements have been seen before
  and the window reaches a finite target (`SlowStartEndsIff`). Without `do_ss` it therefore never ends, in any mode
  and through any restart (`NeverLeavesSlowStart`), and the step size never leaves 1.
* The additive branch of the step-size rule is dead: a step size is a power of two and never below `MAX_UPDATE_AMT`,
  so it doubles at once, and when depends on a direction that only turns when two updates come within a round trip
  (`UpdateIs`, `StepDoubles`).
* Losses found at the very time of the last ones do not back delta off; they can even count as growth (`AckedIs`,
  `AckSetsDelta`).
* A tester client that stops its workers can join them if and only if every worker had seen the release before
  the stop; a late worker waits for a value that never returns (`StopSucceedsIff`).
* The tester's byte counter is exact if and only if no round sends 2^32 bytes or more (`CountersExact`); at 1 Gbps a
  stall of 35.4 seconds is enough (`ByteCounterWraps`).
* The signal delay is the least time to a departure, as its comment says, if and only if messages depart in the
  order of their creation (`SoonestIffInOrder`).

## Model

| member | source | states |
|---|---|---|
| `SlidingWindow.Win.constructor` | vns/vns_utils.cc:53-58 | A new window is the empty reference window: 10000 long, its value the sentinel of its kind. |
| `SlidingWindow.Win.Clear` | vns/vns_utils.cc:60-64 | Clearing returns to the empty reference window, whatever came before. |
| `SlidingWindow.Win.UpdateSz` | vns/vns_utils.cc:79 | Only the length changes; samples and value stay until the next sample. |
| `SlidingWindow.Win.Add` | vns/vns_utils.cc:66-77 | Popping, pushing, the cached extremum and the expiry together do what the brute-force reference does with one more sample. |
| `SlidingWindow.Win.UpdateWin` | vns/vns_utils.cc:36-51 | Expiry drops the front up to the first sample young enough, never the last one, and refreshes the cached extremum exactly when something at least as good was dropped. |
| `SlidingWindow.PushStep` | vns/vns_utils.cc:66-74 | From a deque that represents a window, popping what the sample strictly beats and pushing it represents the window with the sample. |
| `SlidingWindow.ExpiryStep` | vns/vns_utils.cc:36-51 | The shortened deque and the refreshed cache represent the window with its live part moved forward. |
| `SlidingWindow.KeptMembers` | vns/vns_utils.cc:66-72 | The deque holds only live samples, is monotone, and its front is the extremum of the live samples. |
| `SlidingWindow.KeptHolds` | vns/vns_utils.cc:66-72 | Every live sample that no later one strictly beats is in the deque. |
| `SlidingWindow.KeptPush` | vns/vns_utils.cc:67-72 | The unbeaten samples after a push are the old ones the new sample does not beat, and the new one. |
| `SlidingWindow.KeptExpire` | vns/vns_utils.cc:39-46 | Dropping from the front of the deque is the same as moving the live index over all samples. |
| `SlidingWindow.ValueIsExtremum` | vns/vns_utils.cc:53-77 | The value is the extremum of the live samples if and only if some sample since the last clear was at least as good as the sentinel. |
| `SlidingWindow.LiveIsUnexpired` | vns/vns_utils.cc:36-79 | Over any run with changing lengths, a sample is live if and only if no sample so far, at the length then in force, left it behind: a window that shrinks and grows does not bring samples back. |
| `SlidingWindow.ValueIsLiveExtremum` | vns/vns_utils.cc:36-79 | Over any run, once seeded, the value is the brute-force extremum of the unexpired samples. |
| `SlidingWindow.DequeIsLiveUnbeaten` | vns/vns_utils.cc:36-79 | Over any run, whatever the lengths, the deque is exactly the sequence of unexpired samples that no later sample strictly beats, and once seeded the cached value is the extremum of the unexpired samples. |
| `SlidingWindow.ZeroSampleMaxWindow` | vns/vns_utils.cc:60-77 | A max window that has only seen 0 reports a positive value no sample had. |
| `SlidingWindow.NewestSample` | vns/vns_utils.cc:73-74 | The newest sample never beats the value, seeded or not. |
| `SlidingWindow.WiderWindow` | vns/vns_utils.cc:100-118 | Of two windows over the same samples, the one that reaches further back has a value at least as good. |
| `RttWindows.RttWin.constructor` | vns/vns_utils.cc:82-90 | Four empty windows and no smoothed RTT. |
| `RttWindows.RttWin.Clear` | vns/vns_utils.cc:92-98 | Clears the four windows and the smoothed RTT and keeps the current RTT. |
| `RttWindows.RttWin.Add` | vns/vns_utils.cc:100-118 | One sample updates the smoothed RTT and reaches all four windows, each resized by its own rule before it. |
| `RttWindows.RttWin.ModeEyenet` | vns/vns_utils.cc:120-123 | True exactly when the smallest recent RTT is within a tenth of the observed range of the overall minimum. |
| `RttWindows.AddKeepsNested` | vns/vns_utils.cc:100-118 | A sample that is not negative keeps the four differently resized windows nested. |
| `RttWindows.NestedIsInOrder` | vns/vns_utils.cc:100-118 | Nested windows give min_rtt <= eyenet_min <= virgin_rtt <= curr_rtt <= eyenet_max. |
| `RttWindows.StreamInOrder` | vns/vns_utils.cc:100-118 | That order holds after every sample of every run of RTTs that are not negative. |
| `RttWindows.EstimatesNotNegative` | vns/vns_utils.cc:100-118 | Neither minimum is ever negative. |
| `RttWindows.EstimatesReach` | vns/vns_utils.cc:100-118 | Which samples each of the four windows holds after one more: those it held that are no older than ten seconds or twenty minimal RTTs, and for three of them half a smoothed RTT or four of them; and the smoothed RTT moves by a sixteenth of the distance. |
| `RttWindows.InModeIff` | vns/vns_utils.cc:120-123 | The mode test, cleared of fractions; with constant RTTs it fails. |
| `LossReduction.LossReduce.constructor` | vns/vns_utils.hh:134-138 | Nothing counted, window at time 0. |
| `LossReduction.LossReduce.Update` | vns/vns_utils.cc:163-179 | The two counters always count the updates and the losses since the last reset, and it asks for a cut exactly when an expired window of more than 20 updates was all losses. |
| `LossReduction.LossReduce.Clear` | vns/vns_utils.cc:181-185 | Back to nothing counted. |
| `LossReduction.LossesAre` | vns/vns_utils.cc:163-179 | Closed form of any number of losses at one time: at most one reset, where it happens, what is left counted, and when one of them asks for a cut. |
| `LossReduction.AckedResetsOnce` | vns/vns_eyenet.cc:255-284 | However many losses one acknowledgement walks over, the counters are reset at most once, its own final update included. |
| `LossReduction.CutsAsIntendedIff` | vns/vns_utils.cc:168-176 | The integer division decides as the 30% rule would if and only if the decision is not due with a loss rate strictly between 0.3 and 1. |
| `LossReduction.TwentyOf21DoNotCut` | vns/vns_utils.cc:168-176 | An update at which it does not: 20 losses of 21 updates in an expired window. |
| `LossReduction.CutNeedsBurst` | vns/vns_eyenet.cc:255-290 | With a delivered packet last, an acknowledgement cuts if and only if nothing was counted, more than 20 losses are walked and the window has expired; its own final update never cuts. |
| `LossReduction.WindowStartAdvances` | vns/vns_utils.cc:168-173 | The window start never moves back, and a cut moves it to now from more than two RTTs ago. |
| `DeltaControl.UpdateIsAimd` | vns/vns_eyenet.cc:120-155 | When the controller competes (always in the cooperative mode, in the automatic one while the mode test fails) a loss a round trip after the last takes 1/delta to the larger of 2 and half, and otherwise a round trip after the last update adds exactly 1; when it does not, delta is 1/2 or unchanged. Both time stamps are stated. |
| `DeltaControl.AckedIs` | vns/vns_eyenet.cc:241-281 | The two updates of one acknowledgement together, in closed form, losses at the time of the last ones included. |
| `DeltaControl.InverseDeltaBounded` | vns/vns_eyenet.cc:120-155 | Over any run 1/delta stays between 1/default and its start plus the number of growth steps. |
| `Steering.UpdateKeepsPow2` | vns/vns_eyenet.cc:85-104 | The step size stays a power of two, so the integer cast loses nothing, and grows no further than cwnd * delta allows. |
| `Steering.StepSizeBounded` | vns/vns_eyenet.cc:85-113 | Over any sequence of steps and cuts that starts with step size 1, the step size is a power of two between 1 and the largest cwnd * delta met. |
| `Steering.SlowStartEnds` | vns/vns_eyenet.cc:79-84 | In slow start an update ends it if and only if slow-start switching is on, the target is finite and the window reaches it. |
| `Steering.SteadyUpdate` | vns/vns_eyenet.cc:79-115 | Without slow-start switching slow start goes on with step size 1, whatever delta is: one update moves the window by 1/(delta * cwnd) towards a finite target, never below 2. |
| `Steering.UpdateIs` | vns/vns_eyenet.cc:79-115 | One update in closed form: the window before the step, the direction, the step size (the additive branch is dead, so it doubles, stays or is reset to one, and is then halved above cwnd * delta), the new window and what is remembered of directions and times. |
| `Steering.StepGrows` | vns/vns_eyenet.cc:107-113 | A step of amt moves the window by amt / (delta * cwnd) packets. |
| `Steering.SlowStartGrows` | vns/vns_eyenet.cc:79-113 | In slow start with no queueing delay one update grows the window by one packet and a step, whether or not do_ss is set, and slow start goes on. |
| `Steering.StepDoubles` | vns/vns_eyenet.cc:85-111 | Over any number of upward updates more than a round trip apart, the step size doubles every time as long as it stays within cwnd * delta. |
| `Steering.StepApproaches` | vns/vns_eyenet.cc:107-115 | A step comes closer to the goal by at least 2/bound, or stays within one packet of it. |
| `Steering.TrajectoryApproaches` | vns/vns_eyenet.cc:107-115 | After n steps the distance has shrunk by n least moves or is at most one packet; the band is never left again. |
| `Steering.Converges` | vns/vns_eyenet.cc:66-118 | A fixed finite target is approached to within one packet in at most c * distance / 2 steps, c the larger of start and goal, and every later step stays there. |
| `PacketBooks.SentKeepsBalance` | vns/vns_eyenet.cc:295-314 | Sending keeps nsent = in flight + lost + acknowledged if and only if the id is not already in flight. |
| `PacketBooks.AcknowledgedClassifies` | vns/vns_eyenet.cc:252-278 | A matching acknowledgement removes exactly the ids up to it and classifies each once: itself acknowledged, the older ones lost. |
| `PacketBooks.AcknowledgedKeepsBalance` | vns/vns_eyenet.cc:252-278 | Any acknowledgement keeps the books balanced and issues no id. |
| `PacketBooks.SentKeepsTimely` | vns/vns_eyenet.cc:295-303 | Send times stay in id order when ids are handed out in increasing order. |
| `PacketBooks.LeastIsOldest` | vns/vns_eyenet.cc:305-312 | The first entry of the map is the oldest packet in flight. |
| `PacketBooks.WalkVisits` | vns/vns_eyenet.cc:255-276 | The next entry of the walk is out of order if and only if some id is below -1; otherwise erasing it keeps the walk going. |
| `PacketBooks.WalkEnds` | vns/vns_eyenet.cc:255-277 | A walk with nothing left up to the acknowledged id has erased and counted exactly what the acknowledgement settles. |
| `ControllerRuns.RestartEstablishes` | vns/vns_eyenet.cc:165-218 | `initialize` establishes the whole invariant from any state. |
| `ControllerRuns.TickKeeps` | vns/vns_eyenet.cc:157-159 | A later clock keeps the invariant. |
| `ControllerRuns.SendKeeps` | vns/vns_eyenet.cc:295-317 | Sending a new id keeps the invariant. |
| `ControllerRuns.SampledKeeps` | vns/vns_eyenet.cc:232-249 | The first part of `on_ack` leaves the estimates in order and delta in (0, 1/2], and changes nothing else. |
| `ControllerRuns.SteeredKeeps` | vns/vns_eyenet.cc:66-118 | Moving the window keeps cwnd >= 2, the pacing interval tied to it and the step size a power of two. |
| `ControllerRuns.ReactedKeeps` | vns/vns_eyenet.cc:252-292 | Classifying packets and the cut re-establish the whole invariant. |
| `ControllerRuns.AckKeeps` | vns/vns_eyenet.cc:220-293 | `on_ack` for a packet already sent keeps the invariant, in every mode. |
| `ControllerRuns.ApplyKeeps` | vns/vns_eyenet.cc:157-317 | Every legal event keeps the invariant. |
| `ControllerRuns.After` | vns/vns_eyenet.cc:157-317 | Every state a legal run reaches satisfies the invariant. |
| `ControllerTheorems.PacketsAreConserved` | vns/vns_eyenet.cc:252-314 | In every reachable state nsent = in flight + lost + acknowledged, nlost counts the lost, and no id is in two places. |
| `ControllerTheorems.ClassificationIsFinal` | vns/vns_eyenet.cc:252-278 | Until the next `initialize` nothing classified is ever in flight again or classified otherwise. |
| `ControllerTheorems.AckBooks` | vns/vns_eyenet.cc:220-293 | Sampling and steering take no part in the accounting: an acknowledgement settles the same packets whatever the window does. |
| `ControllerTheorems.AbortsUnreachable` | vns/vns_eyenet.cc:234-260 | In a reachable state the RTT is never below its minimum and no id is below -1, so neither abort can happen. |
| `ControllerTheorems.AimIs` | vns/vns_eyenet.cc:66-77 | In every reachable state the aim of an acknowledgement is unbounded exactly when the virgin RTT is the minimum, and otherwise t * delta * (virgin - minimum) = virgin. |
| `ControllerTheorems.AckMovesWindow` | vns/vns_eyenet.cc:220-293 | What an acknowledgement does to the window of a reachable controller: nothing before the twentieth, one steering step towards its aim from then on, and a cut to the larger of 2 and four fifths; whenever it moves, pacing spreads it over half the virgin RTT of that acknowledgement. |
| `ControllerTheorems.CutTakesAFifth` | vns/vns_eyenet.cc:285-291 | No cut raises a window; one above 2.5 packets loses exactly a fifth, any other becomes 2. |
| `ControllerTheorems.GrowsWithoutQueue` | vns/vns_eyenet.cc:66-115 | Over any run whose acknowledgements see no queue and do not cut, slow start grows the window by more than one packet per acknowledgement, in every mode, with or without do_ss. |
| `ControllerTheorems.AckSetsDelta` | vns/vns_eyenet.cc:220-282 | What a whole acknowledgement does to delta in a reachable state, from its sample, the mode test on the sampled estimates and the packets it gives up. |
| `ControllerTheorems.RestartForgets` | vns/vns_eyenet.cc:165-218 | `initialize` makes two controllers with the same settings equal, whatever they have been through, and to what values. |
| `ControllerTheorems.OldestFirstIsFullScan` | vns/vns_eyenet.cc:304-312 | Looking at the first map entry only gives the larger of the virgin RTT and the age of every packet in flight. |
| `ControllerTheorems.PacingMatchesWindow` | vns/vns_eyenet.cc:115-117 | In every reachable state 2 * intersend * cwnd is the virgin RTT used when the window last changed. |
| `ControllerTheorems.StepSizeOverRuns` | vns/vns_eyenet.cc:85-113 | In every reachable state, in every mode and through restarts and cuts, update_amt is a power of two between 1 and the largest cwnd * delta seen. |
| `ControllerTheorems.SlowStartEndsIff` | vns/vns_eyenet.cc:66-84 | In every reachable state an acknowledgement ends slow start if and only if do_ss is set, 2 * nprobe - 1 acknowledgements came before, and the window reaches the finite target of that acknowledgement. |
| `ControllerTheorems.NeverLeavesSlowStart` | vns/vns_eyenet.cc:79-104 | Without do_ss every state of every run, in every mode and through restarts, is in slow start with step size 1. |
| `ControllerTheorems.SlowStartStaysOver` | vns/vns_eyenet.cc:79-104 | Once over, slow start stays over until the next `initialize`. |
| `ControllerTheorems.CutsOnlyOnBursts` | vns/vns_eyenet.cc:270-290 | A reachable acknowledgement cuts if and only if nothing was counted since the last reset, it gives up more than 20 packets, and two RTTs have passed. |
| `ControllerTheorems.QuietKeepsWindow` | vns/vns_eyenet.cc:295-317 | Ticks and sends leave the window, delta, the pacing and the loss counters as they are. |
| `ControllerTheorems.CutsAreSpaced` | vns/vns_eyenet.cc:274-290 | Between two calls of `initialize` any two cuts are more than two RTTs apart. |
| `ControllerTheorems.CutsInRunAreSpaced` | vns/vns_eyenet.cc:274-290 | The same for any two cuts at any two positions of one run. |
| `ControllerTheorems.RunFollowsTrajectory` | vns/vns_eyenet.cc:66-118 | In constant mode a run that aims at one finite target moves the window along the steering trajectory, whatever is sent in between. |
| `ControllerTheorems.WindowConverges` | vns/vns_eyenet.cc:66-118 | Hence after enough acknowledgements the window of the whole controller is within one packet of the larger of 2 and the target. |
| `ControllerExamples.CutIsReachable` | vns/vns_eyenet.cc:284-290 | A legal run from the start of the program ends in a cut that takes the initial window of ten to eight: 22 packets sent at once, and the last acknowledged a second later. |
| `ControllerExamples.TwoCutsAreReachable` | vns/vns_utils.cc:163-179 | One run without a restart cuts twice: burst, nineteen deliveries and one after the loss window has expired, burst again. So the spacing of cuts is not empty. |
| `ControllerExamples.GrowthIsReachable` | vns/vns_eyenet.cc:66-115 | For every n a legal run from the start of the program leads to a run with n acknowledgements that meets every hypothesis of `GrowsWithoutQueue`, and grows the window by n or more. |
| `ControllerExamples.ConvergenceIsReachable` | vns/vns_eyenet.cc:66-118 | A legal run from the start of the program leads to a state and a further run that meet every hypothesis of the convergence theorem, and end with the window within one packet of 4. |
| `Eyenet.Eyenet.constructor` | vns/vns_eyenet.cc:16-64 | The state before the first `initialize`. |
| `Eyenet.Eyenet.SetTs` | vns/vns_eyenet.cc:157-159 | Only the clock changes. |
| `Eyenet.Eyenet.Initialize` | vns/vns_eyenet.cc:165-218 | Every field of the modelled state is as the state machine's restart says. |
| `Eyenet.Eyenet.UpdateIntersend` | vns/vns_eyenet.cc:66-118 | Nothing before 2 * nprobe - 1 acknowledgements; afterwards the steering step, and a pacing interval of half the virgin RTT over the new window. |
| `Eyenet.Eyenet.UpdateDelta` | vns/vns_eyenet.cc:120-155 | Refines the AIMD update of delta. |
| `Eyenet.Eyenet.EraseUpTo` | vns/vns_eyenet.cc:253-277 | The loop erases from the front, counts as lost what is older than the acknowledged id, remembers the last packet visited and feeds each loss to the loss window. |
| `Eyenet.Eyenet.WalkUnacked` | vns/vns_eyenet.cc:252-278 | The walk as a whole does what one set operation on the books says, and reports a malformed map exactly when some id is below -1. |
| `Eyenet.Eyenet.OnAck` | vns/vns_eyenet.cc:220-293 | The object follows the state machine; it exits exactly on a send time in the future or a matched walk over an id below -1, and never on the RTT check. |
| `Eyenet.Eyenet.OnPktSent` | vns/vns_eyenet.cc:295-317 | The object follows the state machine. |
| `Eyenet.Ewma.Update` | vns/vns_utils.cc:27-30 | The mean moves towards the sample by its weight times their distance, and for weights from 0 to 1 stays between the old mean and the sample. |
| `PacingLog.LogGrows` | vns/vns_transport.hh:188-203 | A packet that opens a train inside the window, or continues one, extends a well-paced log. |
| `PacingLog.ChargesFit` | vns/vns_transport.hh:195 | All pacing charges fit between the start and the pacing clock. |
| `PacingLog.RestOfTrainFits` | vns/vns_transport.hh:188-203 | Inside a train the pacing clock plus what the rest of the train will charge does not pass the clock. |
| `PacingLog.ChargesFitElapsedTime` | vns/vns_transport.hh:164-208 | At every train boundary the sum of all charges so far is at most the time elapsed. |
| `PacingLog.StaysInWindow` | vns/vns_transport.hh:188-190 | Every train opens with seq_num < largest_ack + cwnd + 1, and no packet goes further than one train beyond. |
| `PacingLog.RunIsPaced` | vns/vns_transport.hh:164-208 | Both, for a run that ends between trains. |
| `PacingLog.BetweenStep` | vns/vns_transport.hh:188-203 | One turn of the inner loop keeps room for the rest of the train and stays below a fixed limit, which is why the loop ends even with a pacing interval of 0. |
| `SenderRuns.DoKeeps` | vns/vns_transport.hh:173-256 | Every step of the loop keeps it sound: -1 <= largest_ack <= seq_num, no packet stamped later than now, ids told to the controller below the trains begun, an open train begun inside the window with pacing left for the rest of it, and the controller in a reachable state. |
| `SenderRuns.OutKeeps` | vns/vns_transport.hh:188-203 | So does a packet, which moves only its number and the pacing clock, and takes seq_num less than one train beyond the window. |
| `SenderRuns.RunIsWellPaced` | vns/vns_transport.hh:164-208 | In every run the packets form a well-paced log from the first clock reading on, each stamped with the time it went out. |
| `SenderRuns.ChargesFitRun` | vns/vns_transport.hh:164-208 | Between trains all pacing charges fit into the time since the start, and every packet went out within a train of the window it went out under. |
| `SenderRuns.SentIsWire` | vns/vns_transport.hh:192-202 | The packets among the traffic of a run are numbered 0, 1, 2, ..., in order and each once. |
| `SenderRuns.EveryShot` | vns/vns_transport.hh:188-202 | At every packet of every run: the largest acknowledgement is that of the state before it, window and pacing are the controller's after exactly what it had been told by then, and the first packet of a train is told to it next, as train seq_num / bn_train, at the time stamped. |
| `SenderRuns.ControllerFollows` | vns/vns_transport.hh:144-262 | Beside every run the controller follows a legal run of its own, made of exactly what the loop tells it and when. |
| `SenderRuns.ControllerKeepsLaws` | vns/vns_transport.hh:144-262 | So beside every run of the loop its packets are conserved and its step size is within the largest cwnd * delta seen. |
| `SenderRuns.DeafStaysUntouched` | vns/vns_transport.hh:250-253 | With a guard that never holds every state of every run has the initial window of ten and no pacing. |
| `SenderTheorems.GiveUpNeedsSilence` | vns/vns_transport.hh:173-186 | The loop gives up only more than 2000 ms after the start, after every earlier echo and after every earlier time it gave up. |
| `SenderTheorems.GiveUpsTakeTime` | vns/vns_transport.hh:173-186 | Hence it gives up at most once in 2000 ms. |
| `SenderTheorems.StartsOverIff` | vns/vns_transport.hh:173-186 | At the top of every turn of every run: if more than 2000 ms have passed since the latest echo or give-up, or else the start, as told from the times alone, all packets count as acknowledged, the pacing clock and the silence begin anew and the controller is as `initialize` leaves it; otherwise nothing changes. |
| `SenderTheorems.ResumesAfterSilence` | vns/vns_transport.hh:173-203 | So after two silent seconds at least ten packets go out in that very turn. |
| `SenderTheorems.SettlesWhenFull` | vns/vns_transport.hh:188-190 | The inner loop of every run ends between trains, with the window full or the pacing clock less than a train behind. |
| `SenderTheorems.CreditIsCapped` | vns/vns_transport.hh:205-208 | What is left of unused time after it: none while the window is full, all of it if it is less than a train's worth, never more. |
| `SenderTheorems.NoCatchUp` | vns/vns_transport.hh:188-208 | Hence no bursts: from the end of any inner loop to any later point between trains, the packets charge at most the time passed and one train. |
| `SenderTheorems.EveryEcho` | vns/vns_transport.hh:224-255 | Every echo taken is of this flow and of a packet sent, with its send time, counts one packet, 1408 bytes and its delay, and is told to the controller as train (seq_num + 1) / bn_train exactly when the guard holds for seq_num + 1. |
| `SenderTheorems.EveryForeign` | vns/vns_transport.hh:231 | What is received and not taken is of another flow. |
| `SenderTheorems.EveryTurn` | vns/vns_transport.hh:171-173 | A turn begins only while the bytes acknowledged, or the time, are short of the size asked for. |
| `SenderTheorems.LargestAckKeepsUp` | vns/vns_transport.hh:180-255 | The largest acknowledgement is never below that of an echo taken, or what was given up, since the loop last gave up. |
| `SenderTheorems.LargestAckIsOne` | vns/vns_transport.hh:154-255 | And it is always -1 or one of those. |
| `SenderTheorems.StatsAgree` | vns/vns_transport.hh:244-248 | The bytes counted are the payload times the packets counted, and no delay lowers the sum. |
| `SenderTheorems.SendsAtMost` | vns/vns_transport.hh:173-256 | No run floods the network: while the window stays within a cap, at most cap + 1 + bn_train packets go out for the start, for each echo and for each time the loop gives up. |
| `SenderTheorems.DeafSendsAtMost` | vns/vns_transport.hh:144-262 | With a guard that never holds that is 11 + bn_train packets for the start, each echo and each 2000 ms without one. |
| `Transport.Network.Recv` | vns/vns_transport.hh:216-231 | What arrives for this flow echoes a packet this flow has put on the wire before, any number of times and in any order; it or the silence joins the one sequence of sends, receptions and clock readings. |
| `Transport.EchoIsOfSent` | vns/vns_transport.hh:221-231 | So an echo has the number and the send time of a packet the loop has sent. |
| `Transport.TcpTransport.Restart` | vns/vns_transport.hh:168-181 | Takes exactly the restart step of the state machine, from any state. |
| `Transport.TcpTransport.NotifySent` | vns/vns_transport.hh:197-200 | The controller is told of exactly one train, at the time given. |
| `Transport.TcpTransport.NotifyAck` | vns/vns_transport.hh:250-253 | The controller takes exactly one acknowledgement step; for an echo of a packet sent by now that never ends the process. |
| `Transport.TcpTransport.SendOne` | vns/vns_transport.hh:192-202 | Takes the step `Out` of the state machine, and exactly that packet goes on the wire. |
| `Transport.TcpTransport.SendWindow` | vns/vns_transport.hh:188-203 | The inner loop ends, sends packets and does nothing else, and ends exactly when its condition fails: between trains, with the window full or the pacing clock less than a train behind. |
| `Transport.TcpTransport.Absorb` | vns/vns_transport.hh:233-255 | One echo counts one packet, its payload and its delay, moves largest_ack to at least the number after it, and reaches the controller as train (seq_num + 1) / bn_train exactly when the guard holds. |
| `Transport.TcpTransport.OnEcho` | vns/vns_transport.hh:231-255 | Takes the step `In` of the state machine, stamped with the clock reading that follows the reception. |
| `Transport.TcpTransport.CheckTimeout` | vns/vns_transport.hh:174-186 | Takes the step `Look`: after more than two silent seconds, and only then, the controller restarts, all packets count as acknowledged and the pacing clock is reset. |
| `Transport.TcpTransport.SendPhase` | vns/vns_transport.hh:188-208 | Sends what may be sent and then takes the step `Settle`, which brings the pacing clock up to now unless the window has room and less than a train has accumulated. |
| `Transport.TcpTransport.Digest` | vns/vns_transport.hh:217-255 | What arrives is a timeout, somebody else's or an echo, and the loop takes exactly the step for it. |
| `Transport.TcpTransport.Turn` | vns/vns_transport.hh:173-256 | One turn of the outer loop extends the run by one turn, and the traffic by what that run says. |
| `Transport.TcpTransport.SendData` | vns/vns_transport.hh:144-270 | For any guard of the ack arm, even one that looks at the state, a call is a run of the state machine from the restarted controller: everything that passed through the network, in order and to the last clock reading, is the traffic of that run, the object is where the run ends, and it ends after the given number of turns or because enough bytes or time have passed. So every theorem of `SenderRuns` holds of it. |
| `Transport.TcpTransport.SendDataAsWritten` | vns/vns_transport.hh:250-253 | With the guard as written every state of every run has the initial window of ten, unpaced, and the controller has heard of no echo. |
| `Transport.EchoSettlesOwnTrain` | vns/vns_transport.hh:227-252 | The train handed to `on_ack` is the echoed packet's own if and only if it is the last packet of its train, and the one before otherwise. |
| `Transport.PerTrainGuardSettles` | vns/vns_transport.hh:197-252 | For the first packet of a train that is right if and only if trains are one packet long. |
| `DataRank.DataRank.Add` | vns/vns_utils.cc:125-129 | The queue keeps the last hundred values. |
| `DataRank.DataRank.RankIs` | vns/vns_utils.cc:131-133 | The rank asked for is the share of a hundred values above the percentile, rounded down. |
| `DataRank.DataRank.GetRank` | vns/vns_utils.cc:131-156 | Returns the n-th largest of the hundred cyclic reads, with the padding, and leaves the queue rotated by them. |
| `DataRank.Bubble` | vns/vns_utils.cc:142-152 | Carrying a value along the array keeps it the descending top n of everything read. |
| `DataRank.TopGivesNth` | vns/vns_utils.cc:155 | The last of the top n is the n-th largest. |
| `DataRank.RotatedIs` | vns/vns_utils.cc:141-154 | However often the queue is read, the k-th read is the element counted around the queue, and the queue ends up rotated by as much as the reads exceed whole turns: a full turn restores it. |
| `DataRank.PaddingDoesNotCount` | vns/vns_utils.cc:136 | Among values that are not negative the -1 padding does not change the n-th largest. |
| `DataRank.FullQueueRank` | vns/vns_utils.cc:131-156 | With a full queue the answer is its n-th largest value and the queue is unchanged. |
| `TrafficRate.PktsPerSecBounds` | ttest/ttsnd.c:194-198 | In the accepted ranges there are at least 8 packets a second, so the division in the slow branch is safe. |
| `TrafficRate.CalcPktsRate` | ttest/ttsnd.c:189-205 | Burst and interval meet the rate from both sides: the largest burst that fits 50 ms, or the longest interval for one packet, which exceeds the rate by at most 14 parts in 986. |
| `TrafficRate.RateBoundIsTight` | ttest/ttsnd.c:196-199 | 170 Kbps in packets of 1250 bytes exceed the rate by exactly that much. |
| `TrafficSender.CatchUpBalances` | ttest/ttsnd.c:156-183 | Exact books over any number of rounds: what the elapsed time is worth equals what was asked for after the first burst, what flooring lost (less than one packet per late round) and what idle time was worth. |
| `TrafficSender.QuotaAtLeastBurst` | ttest/ttsnd.c:177-181 | Every round is asked for at least one burst. |
| `TrafficSender.AskedWithinElapsed` | ttest/ttsnd.c:156-183 | ibg * (quota after the first round) <= npkts_burst * elapsed, for every number of rounds. |
| `TrafficSender.QuotaFollowsClock` | ttest/ttsnd.c:176-182 | After a late round the quota is the packets its time was worth, rounded down, at once; otherwise one burst, an interval after the round began. |
| `TrafficSender.RateBound` | ttest/ttsnd.c:156-199 | Hence the bits after the first burst stay below 1000/986 of the rate over the elapsed time, and below the rate itself from 20 packets a second up. |
| `TrafficSender.CountersExact` | ttest/ttsnd.c:173-174 | With fewer than 2^32 packets a round the packet counter is exact, and the byte counter is exact if and only if no round sends 2^32 bytes or more. |
| `TrafficSender.ByteCounterWraps` | ttest/ttsnd.c:173 | Two rounds at an accepted rate and packet size after which the byte counter is short by 2^32. |
| `TrafficSender.WrapAdds` | ttest/ttsnd.c:164-175 | Differences of a wrapped 32-bit sequence number are the packets sent, wrapped. |
| `TrafficSender.PassTries` | ttest/ttsnd.c:156-172 | One pass tries just its quota, and nothing else in it puts a packet on the wire. |
| `TrafficSender.TriesItsQuota` | ttest/ttsnd.c:156-183 | Over any number of passes the attempts are the quotas added up and the packets sent are those that did not fail; if none fails, they are the quotas added up. |
| `TrafficSender.Worker.constructor` | ttest/ttsnd.c:137-149 | The first quota is one burst and nothing is sent or counted. |
| `TrafficSender.Worker.WaitUntil` | ttest/ttsnd.c:69-82 | The clock is read, polled until it has just reached the time if less than 100 microseconds are missing, and otherwise slept through once for exactly what is missing. |
| `TrafficSender.Worker.SendQuota` | ttest/ttsnd.c:164-172 | As many attempts as the quota says and nothing else; those that succeed are numbered without gaps modulo 2^32, across failed sends and across rounds. |
| `TrafficSender.Worker.Count` | ttest/ttsnd.c:173-175 | Both counters grow by the wrapped amounts of the round. |
| `TrafficSender.Worker.Refill` | ttest/ttsnd.c:176-182 | A late round makes the next quota the burst scaled to the time taken, without a wait; any other waits for exactly the end of the interval. |
| `TrafficSender.Worker.Burst` | ttest/ttsnd.c:156-182 | The body of the loop is one pass, act by act: a clock reading, the attempts of its quota, a clock reading and the wait; numbering, counters and the next quota follow it. |
| `TrafficSender.Worker.Turn` | ttest/ttsnd.c:156-183 | One turn appends one pass to the books, begun at a clock reading during the turn; all that has passed between the worker and the world stays what the books say. |
| `TrafficSender.Worker.Run` | ttest/ttsnd.c:156-183 | Any number of passes does; every round begins between the clock before and the clock after. |
| `TrafficSender.SendAtRate` | ttest/ttsnd.c:189-220 | From command-line ranges to the wire: the plan meets the rate, the worker tries exactly the packets it was asked for, sends all of them if none fails, and whatever the clock and the socket do, bits sent after the first burst respect the rate bound over the time that passed on the clock. |
| `ReceiverIndex.RegisterKeeps` | ttest/ttrcv.c:58-66 | Joining the shared list keeps the index sound for all workers. |
| `ReceiverIndex.LinkKeeps` | ttest/ttrcv.c:92 | So does joining the bucket. |
| `ReceiverIndex.OneConnectionPerAddress` | ttest/ttrcv.c:68-95 | A worker never has two connections with one address, at any point of any interleaving. |
| `ReceiverIndex.TablesPartitionList` | ttest/ttrcv.c:58-95 | The shared list is the disjoint union of all tables and the connections just being linked; each is in its own bucket, once. |
| `ReceiverIndex.BucketScanIsListSearch` | ttest/ttrcv.c:73-84 | Scanning one bucket finds what searching the whole shared list for the worker's connection would. |
| `ReceiverIndex.TotalCount` | ttest/ttrcv.c:151-154 | A packet counted at one connection adds once to its owner's total and to the total of its address, and to nobody else's. |
| `ReceiverIndex.CountedWhereReceived` | ttest/ttrcv.c:133-157 | What the tester is for: for every worker and address, the packets and bytes accepted from it are those counted at the worker's one connection with it, those lost for want of memory and those in hand. |
| `ReceiverIndex.ReadyAgain` | ttest/ttrcv.c:133-157 | No packet stays in hand: in any interleaving, five steps of a worker's own are enough to count or lose the packet and be ready for the next. |
| `ReceiverIndex.Receiver.constructor` | ttest/ttrcv.c:121-125 | Every bucket of every worker is empty and the index is sound. |
| `ReceiverIndex.Receiver.InitTable` | ttest/ttrcv.c:121-125 | One worker's nested loops empty exactly its own buckets. |
| `ReceiverIndex.Receiver.Receive` | ttest/ttrcv.c:143-149 | A datagram is taken exactly when it is 16 bytes with the signature 0xabcddcba. |
| `ReceiverIndex.Receiver.Lookup` | ttest/ttrcv.c:73-84 | The walk of the bucket returns the result of a plain search of the list. |
| `ReceiverIndex.Receiver.Allocate` | ttest/ttrcv.c:86-90 | A fresh record for the address, or the packet goes uncounted. |
| `ReceiverIndex.Receiver.Register` | ttest/ttrcv.c:58-66 | Identifiers are handed out in list order, exactly 0 to n_conns - 1, and the new connection has counted nothing. |
| `ReceiverIndex.Receiver.Link` | ttest/ttrcv.c:92 | The connection becomes the head of its own bucket. |
| `ReceiverIndex.Receiver.Count` | ttest/ttrcv.c:151-155 | The packet is counted at the connection found for it, which the worker owns (the source's assertion cannot fail), and at no other. |
| `ReceiverIndex.Receiver.Step` | ttest/ttrcv.c:133-157 | Any step of any worker does exactly what its position asks for, to the index, to every counter of every connection and to the packets received and lost, and keeps the index, the numbering and the balance. |
| `ReceiverIndex.Receiver.Run` | ttest/ttrcv.c:133-157 | Every interleaving is a chain of such steps, one for each entry of the schedule, from the old state to the new, and every state on the way is sound; the list only grows, and no packet is lost while memory lasts. |
| `StartUp.StepKeeps` | ttest/ttrcv.c:97-205 | Every step of every thread keeps the protocol's invariant. |
| `StartUp.Reachable` | ttest/ttrcv.c:163-205 | Every interleaving satisfies it. |
| `StartUp.WorkersReadOwnIndex` | ttest/ttrcv.c:99-203 | Every worker reads its own index through the pointer, which is alive and unchanged until it has. |
| `StartUp.ReleasedTogether` | ttest/ttrcv.c:127-205 | A worker that leaves its spin finds every worker initialised with status 1. |
| `StartUp.FailureStopsAll` | ttest/ttsnd.c:238-251 | When the start fails no worker ever works. |
| `StartUp.LateWorkerIsNeverJoined` | ttest/ttsnd.c:152-273 | A worker still spinning when the client stops spins for ever, and the join never ends. |
| `StartUp.JoinAll` | ttest/ttsnd.c:156-273 | While no worker spins there is a schedule that ends every worker and joins it. |
| `StartUp.StopSucceedsIff` | ttest/ttsnd.c:256-273 | Stopping can succeed if and only if no worker is still spinning. |
| `StartUp.LateWorkerIsReachable` | ttest/ttsnd.c:152-267 | One worker is enough to reach a state where it cannot. |
| `StartUp.ReleaseIsSeen` | ttest/ttrcv.c:127-133 | Once the main thread has released them, the next step of a spinning worker puts it to work with its own index, server or client. |
| `StartUp.AllWork` | ttest/ttsnd.c:226-253 | For either role and any number of workers there is an interleaving after which all of them work at once, each with its own index. |
| `StartUp.ClientCanFinish` | ttest/ttsnd.c:226-276 | And one by which a client goes through its whole life, to the last join. |
| `StartUp.HealthyStart` | ttest/ttsnd.c:238-251 | While every thread is created and every worker gets its socket and memory, no interleaving fails. |
| `StartUp.FailureIsNoticed` | ttest/ttsnd.c:238-251 | A worker that has given up is never followed by a release. |
| `StartUp.NoThreadNoStart` | ttest/ttsnd.c:238-241 | A thread that cannot be created ends the start at once. |
| `StartUp.ServerWorksForEver` | ttest/ttrcv.c:133-205 | A server never stops: a worker that works goes on working. |
| `SignalDelay.Aggregate` | scripts/mm-throughput-graph:94-116 | The table holds, for exactly the creation times in the log, the least delay; the first unacceptable departure decides the error. |
| `SignalDelay.Fill` | scripts/mm-throughput-graph:163-169 | Every millisecond between the first and the last sampled time, and no other, gets the gap to the next sampled time plus its delay. |
| `SignalDelay.NeverTooSmall` | scripts/mm-throughput-graph:161-169 | The filled value is never below the least time to a departure of a message created then or later. |
| `SignalDelay.SoonestIffInOrder` | scripts/mm-throughput-graph:161-169 | It equals that time at every millisecond if and only if messages depart in the order of their creation. |
| `SignalDelay.OvertakingMisleads` | scripts/mm-throughput-graph:161-169 | Two departures for which it does not. |
| `JainIndex.SpreadIs` | scripts/pcap-tpt-graph.py:25 | Lagrange's identity for the index: n times the squares exceeds the squared sum by the squared distances of all pairs. |
| `JainIndex.JainBounds` | scripts/pcap-tpt-graph.py:25 | The index of n positive throughputs lies in [1/n, 1], is 1 exactly when all are equal, and 1/n exactly for one flow. |
| `JainIndex.JainIs` | scripts/pcap-tpt-graph.py:25 | The index times n times the sum of the squares is the square of the sum. |
| `JainIndex.JainOfTwo` | scripts/pcap-tpt-graph.py:25 | For two flows, written out. |
| `JainIndex.JainScales` | scripts/pcap-tpt-graph.py:16-25 | Dividing the bucket by its interval leaves the index as it was. |
| `ThroughputGraph.Bucket.Put` | scripts/pcap-tpt-graph.py:54-56 | One packet adds its length to its own flow only. |
| `ThroughputGraph.Graph` | scripts/pcap-tpt-graph.py:14-56 | Over any capture, buckets are closed by the first packet and then by exactly those 0.1 s or more after the last closing, each bucket holds the bytes of every flow from one closing to the next, the rates and indices drawn are those of the buckets, and no counted byte is lost. |
| `ThroughputGraph.ClosingsAreDetermined` | scripts/pcap-tpt-graph.py:15-28 | The capture leaves no choice which packets close a bucket, when, and how long each bucket was open. |
| `ThroughputGraph.TenASecond` | scripts/pcap-tpt-graph.py:15 | There are at most ten closings a second. |
| `ThroughputGraph.NoneIsMissed` | scripts/pcap-tpt-graph.py:15 | Every packet closes a bucket or comes less than a tenth of a second after one that did. |
| `ThroughputGraph.EveryRateIsDrawn` | scripts/pcap-tpt-graph.py:16-19 | Every bucket that holds a flow is drawn, at its closing, with its bytes over its length, |
| `ThroughputGraph.EveryRateDrawnIs` | scripts/pcap-tpt-graph.py:16-19 | and everything drawn is such a bucket. |
| `ThroughputGraph.EveryIndexIsDrawn` | scripts/pcap-tpt-graph.py:20-26 | An index is drawn for every bucket with as many flows as the one before it. |
| `ThroughputGraph.GatherIsSound` | scripts/pcap-tpt-graph.py:14-56 | Taking packets one by one closes exactly the buckets it should, and fills each with the packets from one closing to the next. |
| `ThroughputGraph.IndicesAreFair` | scripts/pcap-tpt-graph.py:20-26 | Every index drawn is that of one bucket, at its closing: 0 without flows, and between 1/n and 1 for the number n of its flows; the times drawn at go up. |

## Left out

- Transport.TcpTransport.SendData: the outer loop is cut off after a number of turns, since a silent network would keep the source in it for ever; every prefix of every run is covered.
- Transport.TcpTransport.ReceivePhase: `poll` and its timeout are not modelled; a reception or a timeout may be reported at any time.
- Transport.TcpTransport.Begin: the handshake before the first clock reading is not modelled.
- Transport.TcpTransport.constructor: requires a train of at least one packet. The command line accepts 0, which divides by zero at vns/vns_transport.hh:190, and negative lengths, whose remainders and quotients are not modelled.
- Eyenet.Eyenet.OnAck: says nothing of the state in the cases where the source exits the process.
- Eyenet.Eyenet.EraseUpTo: the source erases map entries while a range-based loop is on them; the model visits the keys in ascending order, as that loop is meant to.
- DataRank.DataRank.constructor: requires a percentile that leaves at least one rank; below one the source would read before its array.
- TrafficSender.World.Sleep: `usleep` is taken to sleep at least as long as asked.
- TrafficSender.World.Later: a polling read that sees the same microsecond again is not a step of its own.
- TrafficSender.Worker.SendQuota: the loop counter is unbounded; the source's 32-bit counter never reaches a quota of 2^32 or more.
- TrafficSender.Worker.Run: runs for a given number of rounds instead of until the stop flag.
- ReceiverIndex.Receiver.Lookup: one atomic step, because a table is touched by its own worker only.
- StartUp.StepKeeps: flags are read and written in one global order; weak memory is not modelled, nor are the steps of a worker between reading its index and setting its status.
- SignalDelay.Aggregate: delays are whole milliseconds; the script does not check that. A log without departures is an error value; the script ends by dividing by their number at line 151, before its own check at line 153.
- Rounding, overflow, NaN and infinities of doubles: reals throughout; a target window of DOUBLE_MAX is a separate value, `Unbounded`.
- 32-bit overflow of the controller's and the transport's own counters and of sequence numbers, and 64-bit overflow in the tester.
- The controller type as a template parameter: the sender loop is proved over the one controller the program uses.
- Fields the controller writes and never reads, and `last_avg_send_rate`, which divides by a difference that can be 0.
- The estimate handed to `on_rate_est`, and `on_to` and `close`, which do nothing.
- `interarrival` and `interarrival_rank` inside the controller: they are fed and never asked; the rank itself is in `DataRank`.
- The on/off driver, random distributions, argument parsing, address encoding, socket setup, the receiver's echo loop, statistics and all printing.
- Creating and joining threads beyond the start-up protocol, and the reports the tester's main threads print.
- The percentiles, sums and bins of `mm-throughput-graph`, packet decoding in `pcap-tpt-graph.py`, and the remaining scripts: they would only add easy members.
