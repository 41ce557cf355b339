/** How the main thread of the traffic tester starts, releases and stops its workers with shared flags
    (ttest/ttrcv.c, ttest/ttsnd.c). Threads interleave step by step; a worker learns its index by reading
    the main thread's loop variable through a pointer. */
module StartUp {
  datatype Role = Server | Client

  datatype MainPc = Creating | Waiting | Checking | Releasing | Reporting | Joining | Returned | Failed

  /** A worker thread; from `Setup` on it holds the index it has read. */
  datatype Thread =
    | NotStarted
    | Starting
    | Setup(index: nat)
    | Spinning(index: nat)
    | Working(index: nat)
    | Leaving(index: nat)
    | Exited(index: nat)

  datatype Outcome = Ready | NoSocket | NoMemory

  /** One step of the main thread or of one worker; what the system decides comes with it. */
  datatype Step = Main(created: bool, timeUp: bool) | Worker(k: nat, outcome: Outcome)

  datatype State = State(role: Role, main: MainPc, i: nat, cmd: int, wstatus: seq<int>, threads: seq<Thread>) {
    function N(): nat {
      |threads|
    }

    function MainStep(created: bool, timeUp: bool): State
      requires |wstatus| == |threads|
    {
      match main
      case Creating =>
        if i >= N() then this.(main := Releasing)
        else if !created then this.(main := Failed, wstatus := wstatus[i := 0])
        else this.(main := Waiting, wstatus := wstatus[i := 0], threads := threads[i := Starting])
      case Waiting =>
        if i < N() && wstatus[i] != 0 then this.(main := Checking) else this
      case Checking =>
        if i < N() && wstatus[i] == 1 then this.(main := Creating, i := i + 1) else this.(main := Failed)
      case Releasing => this.(main := Reporting, cmd := 1)
      case Reporting =>
        if role == Client && timeUp then this.(main := Joining, cmd := 2, i := 0) else this
      case Joining =>
        if i >= N() then this.(main := Returned)
        else if threads[i].Exited? then this.(i := i + 1)
        else this
      case Returned => this
      case Failed => this
    }

    function WorkerStep(k: nat, outcome: Outcome): State
      requires k < |threads| && |wstatus| == |threads|
    {
      match threads[k]
      case NotStarted => this
      case Starting => At(k, Setup(i))
      case Setup(x) => (
        match outcome
        case Ready => At(k, Spinning(x)).Put(x, 1)
        case NoSocket => At(k, Exited(x)).Put(x, 2)
        case NoMemory => if role == Client then At(k, Exited(x)).Put(x, 3) else this)
      case Spinning(x) => if cmd == 1 then At(k, Working(x)) else this
      case Working(x) => if cmd == 1 then this else At(k, Leaving(x))
      case Leaving(x) => At(k, Exited(x)).Put(x, 100)
      case Exited(_) => this
    }

    function At(k: nat, t: Thread): State
      requires k < |threads|
    {
      this.(threads := threads[k := t])
    }

    /** Writes the status word of worker `x`; an index past the end would write elsewhere. */
    function Put(x: nat, status: int): State {
      if x < |wstatus| then this.(wstatus := wstatus[x := status]) else this
    }

    function Apply(step: Step): State
      requires |wstatus| == |threads|
    {
      match step
      case Main(created, timeUp) => MainStep(created, timeUp)
      case Worker(k, outcome) => if k < N() then WorkerStep(k, outcome) else this
    }

    // ----- The invariant

    ghost predicate ReadyAt(k: nat)
      requires k < |threads| && |wstatus| == |threads|
    {
      threads[k] == Spinning(k) && wstatus[k] == 1
    }

    ghost predicate FailedAt(k: nat)
      requires k < |threads| && |wstatus| == |threads|
    {
      threads[k] == Exited(k) && (wstatus[k] == 2 || wstatus[k] == 3)
    }

    ghost predicate GettingReadyAt(k: nat)
      requires k < |threads| && |wstatus| == |threads|
    {
      (threads[k] == Starting || threads[k] == Setup(k)) && wstatus[k] == 0
    }

    ghost predicate ActiveAt(k: nat)
      requires k < |threads| && |wstatus| == |threads|
    {
      (threads[k] == Spinning(k) || threads[k] == Working(k)) && wstatus[k] == 1
    }

    ghost predicate StoppingAt(k: nat)
      requires k < |threads| && |wstatus| == |threads|
    {
      || ActiveAt(k)
      || (threads[k] == Leaving(k) && wstatus[k] == 1)
      || (threads[k] == Exited(k) && wstatus[k] == 100)
    }

    /** What the main thread's position says about worker `k`. */
    ghost predicate WorkerOk(k: nat)
      requires k < |threads| && |wstatus| == |threads|
    {
      match main
      case Creating => if k < i then ReadyAt(k) else threads[k] == NotStarted
      case Waiting =>
        if k < i then ReadyAt(k)
        else if k == i then GettingReadyAt(k) || ReadyAt(k) || FailedAt(k)
        else threads[k] == NotStarted
      case Checking =>
        if k < i then ReadyAt(k)
        else if k == i then ReadyAt(k) || FailedAt(k)
        else threads[k] == NotStarted
      case Releasing => ReadyAt(k)
      case Reporting => ActiveAt(k)
      case Joining => StoppingAt(k) && (k < i ==> threads[k].Exited?)
      case Returned => threads[k] == Exited(k) && wstatus[k] == 100
      case Failed => ReadyAt(k) || FailedAt(k) || threads[k] == NotStarted
    }

    ghost predicate Inv() {
      && |wstatus| == |threads|
      && i <= |threads|
      && (main.Waiting? || main.Checking? ==> i < |threads|)
      && cmd == (if main.Reporting? then 1 else if main.Joining? || main.Returned? then 2 else 0)
      && forall k :: 0 <= k < |threads| ==> WorkerOk(k)
    }
  }

  function Begin(role: Role, n: nat): (s: State)
  {
    State(role, Creating, 0, 0, seq(n, _ => 0), seq(n, _ => NotStarted))
  }

  function Run(s: State, steps: seq<Step>): (r: State)
    requires |s.wstatus| == |s.threads|
    ensures |r.wstatus| == |r.threads| == |s.threads| && r.role == s.role
    decreases |steps|
  {
    if steps == [] then s else Run(s, steps[..|steps| - 1]).Apply(steps[|steps| - 1])
  }

  lemma StepKeeps(s: State, step: Step)
    requires s.Inv()
    ensures s.Apply(step).Inv()
  {
    var r := s.Apply(step);
    if step.Worker? && step.k < s.N() {
      assert s.WorkerOk(step.k);
    }
    forall k | 0 <= k < |r.threads|
      ensures r.WorkerOk(k)
    {
      assert s.WorkerOk(k);
    }
  }

  lemma {:induction false} RunKeeps(s: State, steps: seq<Step>)
    requires s.Inv()
    ensures Run(s, steps).Inv()
    decreases |steps|
  {
    if steps != [] {
      RunKeeps(s, steps[..|steps| - 1]);
      StepKeeps(Run(s, steps[..|steps| - 1]), steps[|steps| - 1]);
    }
  }

  lemma Reachable(role: Role, n: nat, steps: seq<Step>)
    ensures Run(Begin(role, n), steps).Inv()
  {
    RunKeeps(Begin(role, n), steps);
  }

  // ----- What holds over every interleaving ----------------------------------------------------------

  /** Every worker that has read an index has read its own, and while one has yet to read it the main
      thread's variable is alive and holds just that index. */
  lemma WorkersReadOwnIndex(role: Role, n: nat, steps: seq<Step>, k: nat)
    requires k < n
    ensures var s := Run(Begin(role, n), steps);
      && (!s.threads[k].NotStarted? && !s.threads[k].Starting? ==> s.threads[k].index == k)
      && (s.threads[k].Starting? ==> s.main.Waiting? && s.i == k)
  {
    var s := Run(Begin(role, n), steps);
    Reachable(role, n, steps);
    assert s.WorkerOk(k);
  }

  /** The step that takes a worker out of its spin finds every worker initialised. */
  lemma ReleasedTogether(role: Role, n: nat, steps: seq<Step>, step: Step, k: nat)
    requires k < n
    requires var s := Run(Begin(role, n), steps); s.threads[k].Spinning? && !s.Apply(step).threads[k].Spinning?
    ensures var s := Run(Begin(role, n), steps); forall j :: 0 <= j < n ==> s.ActiveAt(j)
  {
    hide Run;
    Reachable(role, n, steps);
    LeavingSpin(Run(Begin(role, n), steps), step, k);
  }

  lemma LeavingSpin(s: State, step: Step, k: nat)
    requires s.Inv() && k < s.N() && s.threads[k].Spinning? && !s.Apply(step).threads[k].Spinning?
    ensures forall j :: 0 <= j < s.N() ==> s.ActiveAt(j)
  {
    assert s.WorkerOk(k);
    forall j | 0 <= j < s.N()
      ensures s.ActiveAt(j)
    {
      assert s.WorkerOk(j);
    }
  }

  /** When the start fails, no worker has worked, and none ever will. */
  lemma {:induction false} FailureStopsAll(s: State, steps: seq<Step>, k: nat)
    requires s.Inv() && s.main.Failed? && k < s.N()
    ensures var r := Run(s, steps); r.main.Failed? && r.cmd == 0 && !r.threads[k].Working?
    decreases |steps|
  {
    if steps == [] {
      assert s.WorkerOk(k);
    } else {
      FailureStopsAll(s, steps[..|steps| - 1], k);
      RunKeeps(s, steps);
      assert Run(s, steps).WorkerOk(k);
    }
  }

  // ----- When stopping works -------------------------------------------------------------------------

  /** A worker that has not noticed the release by the time the client stops spins for ever, and the
      join waits for it. */
  lemma {:induction false} LateWorkerIsNeverJoined(s: State, steps: seq<Step>, k: nat)
    requires s.Inv() && s.main.Joining? && k < s.N() && s.threads[k].Spinning?
    ensures var r := Run(s, steps); r.main.Joining? && r.threads[k] == s.threads[k]
    decreases |steps|
  {
    if steps != [] {
      var init := steps[..|steps| - 1];
      LateWorkerIsNeverJoined(s, init, k);
      RunKeeps(s, init);
      assert Run(s, init).WorkerOk(k);
    }
  }

  lemma {:induction false} RunCons(s: State, step: Step, steps: seq<Step>)
    requires |s.wstatus| == |s.threads|
    ensures |s.Apply(step).wstatus| == |s.Apply(step).threads|
    ensures Run(s, [step] + steps) == Run(s.Apply(step), steps)
    decreases |steps|
  {
    var all := [step] + steps;
    if steps == [] {
      assert all[..0] == [] && Run(s, all[..0]) == s;
    } else {
      var n := |steps| - 1;
      RunCons(s, step, steps[..n]);
      assert all[..|all| - 1] == [step] + steps[..n];
    }
  }

  /** How far a thread is from having exited, once it has left its spin. */
  function Ahead(t: Thread): nat {
    match t
    case Working(_) => 2
    case Leaving(_) => 1
    case _ => 0
  }

  /** While no worker spins, there is a way to finish: take each worker out of its loop and join it. */
  lemma {:induction false} JoinAll(s: State) returns (steps: seq<Step>)
    requires s.Inv() && s.main.Joining? && forall k :: 0 <= k < s.N() ==> !s.threads[k].Spinning?
    ensures Run(s, steps).main.Returned?
    decreases s.N() - s.i, if s.i < s.N() then Ahead(s.threads[s.i]) else 0
  {
    var step := if s.i < s.N() && !s.threads[s.i].Exited? then Worker(s.i, Ready) else Main(true, true);
    var r := s.Apply(step);
    StepKeeps(s, step);
    if s.i < s.N() {
      assert s.WorkerOk(s.i);
      var rest := JoinAll(r);
      steps := [step] + rest;
      RunCons(s, step, rest);
    } else {
      steps := [step];
      RunCons(s, step, []);
    }
  }

  /** Stopping the client can succeed if and only if every worker had left its spin before `cmd` was set
      to 2: the join has no way to finish otherwise. */
  lemma StopSucceedsIff(s: State)
    requires s.Inv() && s.main.Joining?
    ensures (exists steps :: Run(s, steps).main.Returned?)
      <==> forall k :: 0 <= k < s.N() ==> !s.threads[k].Spinning?
  {
    if k :| 0 <= k < s.N() && s.threads[k].Spinning? {
      forall steps ensures !Run(s, steps).main.Returned? {
        LateWorkerIsNeverJoined(s, steps, k);
      }
    } else {
      var steps := JoinAll(s);
    }
  }

  ghost predicate Reaches(s: State, r: State)
    requires |s.wstatus| == |s.threads|
  {
    exists steps :: Run(s, steps) == r
  }

  lemma ReachesFrom(s: State, step: Step, next: State, r: State)
    requires |s.wstatus| == |s.threads| == |next.wstatus| == |next.threads|
    requires s.Apply(step) == next && Reaches(next, r)
    ensures Reaches(s, r)
  {
    var steps :| Run(next, steps) == r;
    RunCons(s, step, steps);
  }

  /** Such a state is reachable with a single worker: it starts, the main thread releases and stops it,
      and it has not looked at `cmd` in between. */
  lemma LateWorkerIsReachable()
    ensures Reaches(Begin(Client, 1), State(Client, Joining, 0, 2, [1], [Spinning(0)]))
  {
    var a, b := Main(true, true), Worker(0, Ready);
    var s7 := State(Client, Reporting, 1, 1, [1], [Spinning(0)]);
    var s6 := State(Client, Releasing, 1, 0, [1], [Spinning(0)]);
    var s5 := State(Client, Creating, 1, 0, [1], [Spinning(0)]);
    var s4 := State(Client, Checking, 0, 0, [1], [Spinning(0)]);
    var s3 := State(Client, Waiting, 0, 0, [1], [Spinning(0)]);
    var s2 := State(Client, Waiting, 0, 0, [0], [Setup(0)]);
    var s1 := State(Client, Waiting, 0, 0, [0], [Starting]);
    var s0 := State(Client, Creating, 0, 0, [0], [NotStarted]);
    var end := State(Client, Joining, 0, 2, [1], [Spinning(0)]);
    hide Run, Reaches;
    SelfReaches(end);
    ReachesFrom(s7, a, end, end);
    ReachesFrom(s6, a, s7, end);
    ReachesFrom(s5, a, s6, end);
    ReachesFrom(s4, a, s5, end);
    ReachesFrom(s3, a, s4, end);
    ReachesFrom(s2, b, s3, end);
    ReachesFrom(s1, b, s2, end);
    ReachesFrom(s0, a, s1, end);
    assert Begin(Client, 1) == s0;
  }

  lemma SelfReaches(s: State)
    requires |s.wstatus| == |s.threads|
    ensures Reaches(s, s)
  {
    assert Run(s, []) == s;
  }

  // ----- When starting works -------------------------------------------------------------------------

  /** Once the main thread has released them, a worker that still spins works after its next step, with its own
      index, whatever role it has. */
  lemma ReleaseIsSeen(s: State, k: nat, outcome: Outcome)
    requires s.Inv() && s.main.Reporting? && k < s.N() && s.threads[k].Spinning?
    ensures s.Apply(Worker(k, outcome)) == s.(threads := s.threads[k := Working(k)])
  {
    assert s.WorkerOk(k);
  }

  /** The start has gone well so far. */
  ghost predicate Healthy(s: State) {
    s.Inv() && !s.main.Failed? && forall k :: 0 <= k < s.N() ==> !s.FailedAt(k)
  }

  ghost predicate AllWorking(s: State) {
    s.main.Reporting? && forall k :: 0 <= k < s.N() ==> s.threads[k] == Working(k)
  }

  lemma {:induction false} ReleaseAll(s: State, k: nat) returns (steps: seq<Step>)
    requires s.Inv() && s.main.Reporting? && k <= s.N() && forall j :: 0 <= j < k ==> s.threads[j] == Working(j)
    ensures AllWorking(Run(s, steps))
    decreases s.N() - k
  {
    if k == s.N() {
      steps := [];
    } else {
      assert s.WorkerOk(k);
      if s.threads[k].Spinning? {
        var step := Worker(k, Ready);
        StepKeeps(s, step);
        var rest := ReleaseAll(s.Apply(step), k + 1);
        steps := [step] + rest;
        RunCons(s, step, rest);
      } else {
        steps := ReleaseAll(s, k + 1);
      }
    }
  }

  /** How far worker `i` is from being ready, and the main thread from noticing. */
  function Unready(s: State): nat
    requires |s.wstatus| == |s.threads|
  {
    match s.main
    case Creating => 5
    case Waiting =>
      if s.i < s.N() then match s.threads[s.i] case Starting => 4 case Setup(_) => 3 case _ => 2 else 0
    case Checking => 1
    case _ => 0
  }

  function Stage(main: MainPc): nat {
    match main
    case Creating => 2
    case Waiting => 2
    case Checking => 2
    case Releasing => 1
    case _ => 0
  }

  /** The step that brings the start forward. */
  function Forward(s: State): Step
    requires |s.wstatus| == |s.threads|
  {
    if s.main.Waiting? && s.i < s.N() && s.wstatus[s.i] == 0 then Worker(s.i, Ready) else Main(true, false)
  }

  lemma ForwardGoesOn(s: State)
    requires Healthy(s) && Stage(s.main) > 0
    ensures var r := s.Apply(Forward(s));
      && Healthy(r) && r.N() == s.N() && !r.main.Joining? && !r.main.Returned?
      && (Stage(r.main) < Stage(s.main)
          || (Stage(r.main) == Stage(s.main) && r.i <= r.N() && s.i <= s.N()
              && (r.i > s.i || (r.i == s.i && Unready(r) < Unready(s)))))
  {
    var r := s.Apply(Forward(s));
    StepKeeps(s, Forward(s));
    if s.i < s.N() {
      assert s.WorkerOk(s.i);
    }
    forall k | 0 <= k < r.N()
      ensures !r.FailedAt(k)
    {
      assert s.WorkerOk(k) && !s.FailedAt(k);
    }
  }

  lemma {:induction false} StartAll(s: State) returns (steps: seq<Step>)
    requires Healthy(s) && !s.main.Joining? && !s.main.Returned?
    ensures AllWorking(Run(s, steps))
    decreases Stage(s.main), s.N() - s.i, Unready(s)
  {
    hide Healthy, AllWorking, State.Apply, Unready, Forward;
    HealthyIs(s);
    if Stage(s.main) > 0 {
      ForwardGoesOn(s);
      var rest := StartAll(s.Apply(Forward(s)));
      steps := [Forward(s)] + rest;
      RunCons(s, Forward(s), rest);
    } else {
      steps := ReleaseAll(s, 0);
    }
  }

  lemma HealthyIs(s: State)
    requires Healthy(s)
    ensures s.Inv() && !s.main.Failed?
  {
  }

  lemma BeginIsHealthy(role: Role, n: nat)
    ensures Healthy(Begin(role, n))
  {
  }

  /** The start can succeed: for every role and every number of workers there is an interleaving after which all
      of them work at once, each with its own index. */
  lemma AllWork(role: Role, n: nat) returns (steps: seq<Step>)
    ensures var s := Run(Begin(role, n), steps);
      s.main.Reporting? && s.N() == n && forall k :: 0 <= k < n ==> s.threads[k] == Working(k)
  {
    hide Run, Healthy;
    BeginIsHealthy(role, n);
    steps := StartAll(Begin(role, n));
  }

  /** It fails only if something does: while every thread can be created and every worker gets what it asks
      for, no interleaving ends in failure. */
  lemma {:induction false} HealthyStart(s: State, steps: seq<Step>)
    requires Healthy(s)
    requires forall step :: step in steps ==> if step.Main? then step.created else step.outcome == Ready
    ensures Healthy(Run(s, steps))
    decreases |steps|
  {
    if steps != [] {
      var init, last := steps[..|steps| - 1], steps[|steps| - 1];
      assert last in steps;
      HealthyStart(s, init);
      StepKeepsHealthy(Run(s, init), last);
    }
  }

  lemma StepKeepsHealthy(s: State, step: Step)
    requires Healthy(s) && if step.Main? then step.created else step.outcome == Ready
    ensures Healthy(s.Apply(step))
  {
    var r := s.Apply(step);
    StepKeeps(s, step);
    if s.i < s.N() {
      assert s.WorkerOk(s.i);
    }
    if step.Worker? && step.k < s.N() {
      assert s.WorkerOk(step.k);
    }
    forall k | 0 <= k < r.N()
      ensures !r.FailedAt(k)
    {
      assert s.WorkerOk(k) && !s.FailedAt(k);
    }
  }

  /** And it does fail if something does: a thread that cannot be created ends the start at once, and a worker
      that has given up is never followed by a release. */
  lemma {:induction false} FailureIsNoticed(s: State, steps: seq<Step>, k: nat)
    requires s.Inv() && k < s.N() && s.FailedAt(k)
    ensures var r := Run(s, steps);
      r.FailedAt(k) && r.cmd == 0 && (r.main.Waiting? || r.main.Checking? || r.main.Failed?)
    decreases |steps|
  {
    assert s.WorkerOk(k);
    if steps != [] {
      var init, last := steps[..|steps| - 1], steps[|steps| - 1];
      FailureIsNoticed(s, init, k);
      RunKeeps(s, init);
      var r := Run(s, init);
      assert r.WorkerOk(k);
      if r.main.Waiting? || r.main.Checking? {
        assert r.WorkerOk(r.i);
      }
      if last.Worker? && last.k < r.N() {
        assert r.WorkerOk(last.k);
      }
    }
  }

  lemma NoThreadNoStart(s: State, timeUp: bool)
    requires s.Inv() && s.main.Creating? && s.i < s.N()
    ensures s.Apply(Main(false, timeUp)).main.Failed?
  {
  }

  /** A server never stops: what works goes on working. */
  lemma {:induction false} ServerWorksForEver(s: State, steps: seq<Step>, k: nat)
    requires s.Inv() && s.role.Server? && s.main.Reporting? && k < s.N()
    ensures var r := Run(s, steps);
      r.main.Reporting? && (s.threads[k].Working? ==> r.threads[k] == Working(k))
    decreases |steps|
  {
    assert s.WorkerOk(k);
    if steps != [] {
      var init := steps[..|steps| - 1];
      ServerWorksForEver(s, init, k);
      RunKeeps(s, init);
      assert Run(s, init).WorkerOk(k);
    }
  }

  /** A client can run its whole life: start, work, stop, and join every worker. */
  lemma ClientCanFinish(n: nat) returns (steps: seq<Step>)
    ensures Run(Begin(Client, n), steps).main.Returned?
  {
    var start := AllWork(Client, n);
    var s := Run(Begin(Client, n), start);
    Reachable(Client, n, start);
    var stop := Main(true, true);
    StepKeeps(s, stop);
    assert s.role == Client;
    var rest := JoinAll(s.Apply(stop));
    RunCons(s, stop, rest);
    steps := start + ([stop] + rest);
    RunJoins(Begin(Client, n), start, [stop] + rest);
  }

  lemma {:induction false} RunJoins(s: State, a: seq<Step>, b: seq<Step>)
    requires |s.wstatus| == |s.threads|
    ensures Run(s, a + b) == Run(Run(s, a), b)
    decreases |b|
  {
    if b == [] {
      assert a + b == a;
    } else {
      var n := |b| - 1;
      assert (a + b)[..|a + b| - 1] == a + b[..n] && (a + b)[|a + b| - 1] == b[n];
      RunJoins(s, a, b[..n]);
    }
  }
}
