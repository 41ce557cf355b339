/** The receiving side of the traffic tester (ttest/ttrcv.c): every worker thread keeps its own hash table
    of connections, and all of them append to one list under a lock. Here the workers' atomic steps may
    interleave in any order. */
module ReceiverIndex {
  import opened Options

  const MAX_PORTS := 8192
  const MAX_ADDR_HASH_SZ := 4
  const HDR_SIZE := 16
  const TTEST_PKT_SIG := 0xabcddcba

  datatype Addr = Addr(ip: nat, port: nat)

  /** A bucket: the worker whose table it is in, its row and its column. */
  datatype Slot = Slot(wid: nat, row: nat, col: nat)

  function SlotOf(w: nat, t: Addr): Slot {
    Slot(w, t.port % MAX_PORTS, t.ip % MAX_ADDR_HASH_SZ)
  }

  class RConn {
    const t: Addr
    const wid: nat
    var cid: int
    var npktsRx: int
    var nbytesRx: int

    constructor (t: Addr, wid: nat)
      ensures this.t == t && this.wid == wid && cid == 0 && npktsRx == 0 && nbytesRx == 0
    {
      this.t, this.wid, cid, npktsRx, nbytesRx := t, wid, 0, 0, 0;
    }
  }

  function Home(c: RConn): Slot {
    SlotOf(c.wid, c.t)
  }

  /** Where a worker is in its receive loop; `size` is what the packet in hand says of itself. */
  datatype Pc =
    | Idle
    | Looking(t: Addr, size: nat)
    | Missed(t: Addr, size: nat)
    | Created(c: RConn, size: nat)
    | Linking(c: RConn, size: nat)
    | Found(c: RConn, size: nat)

  // ----- The index -----------------------------------------------------------------------------------

  /** The tables of all workers, the shared list, and where each worker is. */
  datatype Index = Index(hash: map<Slot, seq<RConn>>, conns: seq<RConn>, pcs: seq<Pc>) {
    predicate Linked(c: RConn) {
      Home(c) in hash && c in hash[Home(c)]
    }

    /** Worker `w` has no connection with address `t`. */
    predicate Absent(w: nat, t: Addr) {
      SlotOf(w, t) in hash && Free(hash[SlotOf(w, t)], t)
    }

    ghost predicate BucketsOk() {
      forall s :: s in hash ==> BucketOk(s, hash[s])
    }

    /** A bucket holds registered connections of its own worker and addresses, each address once. */
    ghost predicate BucketOk(s: Slot, bucket: seq<RConn>) {
      && DistinctAddrs(bucket)
      && forall c :: c in bucket ==> Home(c) == s && c in conns
    }

    ghost predicate ListOk() {
      forall c :: c in conns ==>
        c.wid < |pcs| && (Linked(c) || (pcs[c.wid].Linking? && pcs[c.wid].c == c))
    }

    ghost predicate PcOk(w: nat)
      requires w < |pcs|
    {
      match pcs[w]
      case Idle => true
      case Looking(t, _) => SlotOf(w, t) in hash
      case Missed(t, _) => Absent(w, t)
      case Created(c, _) => c.wid == w && c !in conns && Absent(w, c.t)
      case Linking(c, _) => c.wid == w && c in conns && Absent(w, c.t)
      case Found(c, _) => c.wid == w && c in conns && Linked(c)
    }

    ghost predicate Inv() {
      && (forall s: Slot :: s in hash <==> s.wid < |pcs| && s.row < MAX_PORTS && s.col < MAX_ADDR_HASH_SZ)
      && BucketsOk() && ListOk()
      && forall w :: 0 <= w < |pcs| ==> PcOk(w)
    }

    // ----- The atomic steps

    function At(w: nat, pc: Pc): Index
      requires w < |pcs|
    {
      this.(pcs := pcs[w := pc])
    }

    /** Under the lock: the connection joins the tail of the shared list. */
    function Register(w: nat, c: RConn, size: nat): Index
      requires w < |pcs|
    {
      At(w, Linking(c, size)).(conns := conns + [c])
    }

    /** The connection joins the head of its bucket. */
    function Link(w: nat, c: RConn, size: nat): Index
      requires w < |pcs| && Home(c) in hash
    {
      At(w, Found(c, size)).(hash := hash[Home(c) := [c] + hash[Home(c)]])
    }
  }

  predicate Free(bucket: seq<RConn>, t: Addr) {
    forall c :: c in bucket ==> c.t != t
  }

  ghost predicate DistinctAddrs(bucket: seq<RConn>) {
    forall i, j :: 0 <= i < j < |bucket| ==> bucket[i].t != bucket[j].t
  }

  /** A plain search of the shared list for a connection of worker `w`. */
  function Search(conns: seq<RConn>, w: nat, t: Addr): Option<RConn> {
    if conns == [] then None
    else if conns[0].wid == w && conns[0].t == t then Some(conns[0])
    else Search(conns[1..], w, t)
  }

  lemma {:induction false} SearchFails(conns: seq<RConn>, w: nat, t: Addr)
    ensures Search(conns, w, t) == None <==> forall c :: c in conns ==> !(c.wid == w && c.t == t)
    ensures Search(conns, w, t).Some? ==>
      var c := Search(conns, w, t).value; c in conns && c.wid == w && c.t == t
  {
    if conns != [] {
      SearchFails(conns[1..], w, t);
      assert conns == [conns[0]] + conns[1..];
    }
  }

  // ----- Every step keeps the index sound ------------------------------------------------------------

  lemma SlotExists(x: Index, w: nat, t: Addr)
    requires x.Inv() && w < |x.pcs|
    ensures SlotOf(w, t) in x.hash
  {
  }

  lemma PcHolds(x: Index, w: nat)
    requires x.Inv() && w < |x.pcs|
    ensures x.PcOk(w)
  {
  }

  lemma RegisterKeeps(x: Index, w: nat, c: RConn, size: nat)
    requires x.Inv() && w < |x.pcs| && x.pcs[w] == Created(c, size)
    ensures x.Register(w, c, size).Inv()
  {
    var y := x.Register(w, c, size);
    assert forall v :: 0 <= v < |x.pcs| ==> x.PcOk(v);
    forall s | s in y.hash
      ensures y.BucketOk(s, y.hash[s])
    {
      assert x.BucketOk(s, x.hash[s]);
    }
    forall v | 0 <= v < |y.pcs|
      ensures y.PcOk(v)
    {
      assert x.PcOk(v);
      assert x.PcOk(w);
    }
    forall d | d in y.conns
      ensures d.wid < |y.pcs| && (y.Linked(d) || (y.pcs[d.wid].Linking? && y.pcs[d.wid].c == d))
    {
      assert x.PcOk(w);
      assert d == c || d in x.conns;
    }
  }

  lemma LinkKeeps(x: Index, w: nat, c: RConn, size: nat)
    requires x.Inv() && w < |x.pcs| && x.pcs[w] == Linking(c, size) && Home(c) in x.hash
    ensures x.Link(w, c, size).Inv()
  {
    var y := x.Link(w, c, size);
    assert x.PcOk(w);
    forall s | s in y.hash
      ensures y.BucketOk(s, y.hash[s])
    {
      assert x.BucketOk(s, x.hash[s]);
    }
    forall v | 0 <= v < |y.pcs|
      ensures y.PcOk(v)
    {
      assert x.PcOk(v);
    }
  }

  lemma MoveKeeps(x: Index, w: nat, pc: Pc)
    requires x.Inv() && w < |x.pcs| && !x.pcs[w].Linking? && !pc.Linking?
    requires x.At(w, pc).PcOk(w)
    ensures x.At(w, pc).Inv()
  {
    var y := x.At(w, pc);
    forall s | s in y.hash
      ensures y.BucketOk(s, y.hash[s])
    {
      assert x.BucketOk(s, x.hash[s]);
    }
    forall v | 0 <= v < |y.pcs|
      ensures y.PcOk(v)
    {
      assert x.PcOk(v);
    }
  }

  // ----- What the index promises ---------------------------------------------------------------------

  /** A worker never has two connections with one address, whatever it and the others are doing. */
  lemma OneConnectionPerAddress(x: Index, c: RConn, d: RConn)
    requires x.Inv() && c in x.conns && d in x.conns && c.wid == d.wid && c.t == d.t
    ensures c == d
  {
    assert x.PcOk(c.wid);
    if x.Linked(c) && x.Linked(d) {
      assert x.BucketOk(Home(c), x.hash[Home(c)]);
    }
  }

  /** The shared list is the disjoint union of the tables and of the connections that are being linked:
      every connection is in one place, once, and a bucket holds nothing else. */
  lemma TablesPartitionList(x: Index)
    requires x.Inv()
    ensures forall s, c :: s in x.hash && c in x.hash[s] ==> c in x.conns && s == Home(c)
    ensures forall s :: s in x.hash ==> DistinctAddrs(x.hash[s])
    ensures forall c :: c in x.conns ==>
      c.wid < |x.pcs| && (x.Linked(c) <==> !(x.pcs[c.wid].Linking? && x.pcs[c.wid].c == c))
  {
    forall s, c | s in x.hash && c in x.hash[s]
      ensures c in x.conns && s == Home(c)
    {
      assert x.BucketOk(s, x.hash[s]);
    }
    forall s | s in x.hash
      ensures DistinctAddrs(x.hash[s])
    {
      assert x.BucketOk(s, x.hash[s]);
    }
    forall c | c in x.conns
      ensures c.wid < |x.pcs| && (x.Linked(c) <==> !(x.pcs[c.wid].Linking? && x.pcs[c.wid].c == c))
    {
      assert x.PcOk(c.wid);
    }
  }

  /** The scan of one bucket, from its head. */
  function Scan(bucket: seq<RConn>, t: Addr): Option<RConn> {
    if bucket == [] then None
    else if bucket[0].t == t then Some(bucket[0])
    else Scan(bucket[1..], t)
  }

  lemma {:induction false} ScanFails(bucket: seq<RConn>, t: Addr)
    ensures Scan(bucket, t) == None <==> Free(bucket, t)
    ensures Scan(bucket, t).Some? ==> var c := Scan(bucket, t).value; c in bucket && c.t == t
  {
    if bucket != [] {
      ScanFails(bucket[1..], t);
      assert bucket == [bucket[0]] + bucket[1..];
    }
  }

  /** Scanning one bucket of one table finds what a search of the whole shared list would. */
  lemma BucketScanIsListSearch(x: Index, w: nat, t: Addr)
    requires x.Inv() && w < |x.pcs| && !x.pcs[w].Linking? && SlotOf(w, t) in x.hash
    ensures Scan(x.hash[SlotOf(w, t)], t) == Search(x.conns, w, t)
  {
    var s := SlotOf(w, t);
    ScanFails(x.hash[s], t);
    SearchFails(x.conns, w, t);
    assert x.BucketOk(s, x.hash[s]);
    var scanned, searched := Scan(x.hash[s], t), Search(x.conns, w, t);
    if searched.Some? {
      assert x.Linked(searched.value);
      if scanned.Some? {
        OneConnectionPerAddress(x, scanned.value, searched.value);
      }
    }
  }

  // ----- Counting ------------------------------------------------------------------------------------

  datatype Load = Load(pkts: int, bytes: int) {
    function Plus(o: Load): Load {
      Load(pkts + o.pkts, bytes + o.bytes)
    }
  }

  const NOTHING := Load(0, 0)

  lemma PlusNothing(o: Load)
    ensures o.Plus(NOTHING) == o && NOTHING.Plus(o) == o
  {
  }

  /** A load that worker `wid` has from address `t`: what a connection has counted, or one packet. */
  datatype Stat = Stat(wid: nat, t: Addr, load: Load) {
    function Plus(o: Load): Stat {
      this.(load := load.Plus(o))
    }
  }

  /** Whose load: all of a worker's, or what it has from one address. */
  datatype Whose = All(w: nat) | From(w: nat, t: Addr) {
    predicate Covers(s: Stat) {
      s.wid == w && (From? ==> s.t == t)
    }

    function Share(s: Stat): Load {
      if Covers(s) then s.load else NOTHING
    }
  }

  function Total(stats: seq<Stat>, whose: Whose): Load {
    if stats == [] then NOTHING
    else Total(stats[..|stats| - 1], whose).Plus(whose.Share(stats[|stats| - 1]))
  }

  lemma TotalIs(stats: seq<Stat>, whose: Whose)
    ensures Total(stats, whose) ==
      if stats == [] then NOTHING else Total(stats[..|stats| - 1], whose).Plus(whose.Share(stats[|stats| - 1]))
  {
  }

  lemma TotalPush(stats: seq<Stat>, last: Stat, whose: Whose)
    ensures Total(stats + [last], whose) == Total(stats, whose).Plus(whose.Share(last))
  {
    assert (stats + [last])[..|stats|] == stats;
  }

  /** Counting a packet at one connection counts it once, for that connection and for the worker that owns
      it, and for nobody else. */
  lemma {:induction false} TotalCount(stats: seq<Stat>, i: nat, more: Load, whose: Whose)
    requires i < |stats|
    ensures Total(stats[i := stats[i].Plus(more)], whose)
      == Total(stats, whose).Plus(if whose.Covers(stats[i]) then more else NOTHING)
    decreases |stats|
  {
    hide Total;
    var n := |stats| - 1;
    var after := stats[i := stats[i].Plus(more)];
    TotalIs(stats, whose);
    TotalIs(after, whose);
    if i == n {
      assert after[..n] == stats[..n];
    } else {
      TotalCount(stats[..n], i, more, whose);
      assert after[..n] == stats[..n][i := stats[i].Plus(more)];
    }
  }

  lemma {:induction false} TotalOfNone(stats: seq<Stat>, whose: Whose)
    requires forall j | 0 <= j < |stats| :: !whose.Covers(stats[j])
    ensures Total(stats, whose) == NOTHING
  {
    hide Total, Load.Plus;
    TotalIs(stats, whose);
    PlusNothing(NOTHING);
    if stats != [] {
      TotalOfNone(stats[..|stats| - 1], whose);
    }
  }

  lemma {:induction false} TotalOfOne(stats: seq<Stat>, i: nat, whose: Whose)
    requires i < |stats| && whose.Covers(stats[i])
    requires forall j | 0 <= j < |stats| && whose.Covers(stats[j]) :: j == i
    ensures Total(stats, whose) == stats[i].load
  {
    hide Total, Load.Plus;
    TotalIs(stats, whose);
    PlusNothing(stats[i].load);
    var n := |stats| - 1;
    if i == n {
      TotalOfNone(stats[..n], whose);
    } else {
      TotalOfOne(stats[..n], i, whose);
    }
  }

  /** The packet a worker has received and not yet counted. */
  function InHand(w: nat, pc: Pc): Stat {
    match pc
    case Idle => Stat(w, Addr(0, 0), NOTHING)
    case Looking(t, size) => Stat(w, t, Load(1, size))
    case Missed(t, size) => Stat(w, t, Load(1, size))
    case Created(c, size) => Stat(w, c.t, Load(1, size))
    case Linking(c, size) => Stat(w, c.t, Load(1, size))
    case Found(c, size) => Stat(w, c.t, Load(1, size))
  }

  /** Every valid packet a worker received is counted at one of its connections, was lost for want of
      memory, or is in hand; and so are those of each address by themselves. */
  ghost predicate Balanced(stats: seq<Stat>, pcs: seq<Pc>, arrived: seq<Stat>, lost: seq<Stat>) {
    forall whose: Whose :: whose.w < |pcs| ==> Balance(stats, pcs[whose.w], arrived, lost, whose)
  }

  ghost predicate Balance(stats: seq<Stat>, pc: Pc, arrived: seq<Stat>, lost: seq<Stat>, whose: Whose) {
    Total(stats, whose).Plus(Total(lost, whose)).Plus(whose.Share(InHand(whose.w, pc))) == Total(arrived, whose)
  }

  lemma NothingBalances(pcs: seq<Pc>)
    requires forall w :: 0 <= w < |pcs| ==> pcs[w] == Idle
    ensures Balanced([], pcs, [], [])
  {
    hide Total, Load.Plus;
    PlusNothing(NOTHING);
    forall whose: Whose | whose.w < |pcs|
      ensures Balance([], pcs[whose.w], [], [], whose)
    {
      TotalIs([], whose);
    }
  }

  lemma MovedBalances(stats: seq<Stat>, pcs: seq<Pc>, arrived: seq<Stat>, lost: seq<Stat>, w: nat, pc: Pc)
    requires Balanced(stats, pcs, arrived, lost) && w < |pcs| && InHand(w, pc) == InHand(w, pcs[w])
    ensures Balanced(stats, pcs[w := pc], arrived, lost)
  {
    hide Total, InHand;
    forall whose: Whose | whose.w < |pcs|
      ensures Balance(stats, pcs[w := pc][whose.w], arrived, lost, whose)
    {
      assert Balance(stats, pcs[whose.w], arrived, lost, whose);
    }
  }

  lemma ArrivedBalances(stats: seq<Stat>, pcs: seq<Pc>, arrived: seq<Stat>, lost: seq<Stat>, w: nat, pc: Pc)
    requires Balanced(stats, pcs, arrived, lost) && w < |pcs| && pcs[w].Idle?
    ensures Balanced(stats, pcs[w := pc], arrived + [InHand(w, pc)], lost)
  {
    hide Total;
    forall whose: Whose | whose.w < |pcs|
      ensures Balance(stats, pcs[w := pc][whose.w], arrived + [InHand(w, pc)], lost, whose)
    {
      assert Balance(stats, pcs[whose.w], arrived, lost, whose);
      TotalPush(arrived, InHand(w, pc), whose);
    }
  }

  lemma LostBalances(stats: seq<Stat>, pcs: seq<Pc>, arrived: seq<Stat>, lost: seq<Stat>, w: nat)
    requires Balanced(stats, pcs, arrived, lost) && w < |pcs|
    ensures Balanced(stats, pcs[w := Idle], arrived, lost + [InHand(w, pcs[w])])
  {
    hide Total;
    forall whose: Whose | whose.w < |pcs|
      ensures Balance(stats, pcs[w := Idle][whose.w], arrived, lost + [InHand(w, pcs[w])], whose)
    {
      assert Balance(stats, pcs[whose.w], arrived, lost, whose);
      TotalPush(lost, InHand(w, pcs[w]), whose);
    }
  }

  lemma RegisteredBalances(stats: seq<Stat>, pcs: seq<Pc>, arrived: seq<Stat>, lost: seq<Stat>, w: nat, pc: Pc,
                           record: Stat)
    requires Balanced(stats, pcs, arrived, lost) && w < |pcs| && InHand(w, pc) == InHand(w, pcs[w])
    requires record.load == NOTHING
    ensures Balanced(stats + [record], pcs[w := pc], arrived, lost)
  {
    hide Total, InHand;
    forall whose: Whose | whose.w < |pcs|
      ensures Balance(stats + [record], pcs[w := pc][whose.w], arrived, lost, whose)
    {
      assert Balance(stats, pcs[whose.w], arrived, lost, whose);
      TotalPush(stats, record, whose);
    }
  }

  /** Counting the packet in hand at connection `i`, which must be the worker's own and have the packet's
      address. */
  lemma CountedBalances(stats: seq<Stat>, pcs: seq<Pc>, arrived: seq<Stat>, lost: seq<Stat>, w: nat, i: nat)
    requires Balanced(stats, pcs, arrived, lost) && w < |pcs| && i < |stats|
    requires stats[i].wid == w && stats[i].t == InHand(w, pcs[w]).t
    ensures Balanced(stats[i := stats[i].Plus(InHand(w, pcs[w]).load)], pcs[w := Idle], arrived, lost)
  {
    hide Total;
    var packet := InHand(w, pcs[w]);
    forall whose: Whose | whose.w < |pcs|
      ensures Balance(stats[i := stats[i].Plus(packet.load)], pcs[w := Idle][whose.w], arrived, lost, whose)
    {
      assert Balance(stats, pcs[whose.w], arrived, lost, whose);
      TotalCount(stats, i, packet.load, whose);
    }
  }

  // ----- The receiver --------------------------------------------------------------------------------

  /** What the outside decides about a step: the datagram a `recvfrom` returns, and whether an allocation
      succeeds. */
  datatype Input = Input(rxLen: int, sig: int, src: Addr, size: nat, memory: bool) {
    /** A whole header with the tester's signature. */
    predicate Accepted() {
      rxLen == HDR_SIZE && sig == TTEST_PKT_SIG
    }
  }

  /** The index, what each connection of the list has counted, and the packets received and lost so far. */
  datatype Snap = Snap(x: Index, counted: seq<Stat>, arrived: seq<Stat>, lost: seq<Stat>) {
    ghost predicate Sound() {
      x.Inv() && Tallies(x.conns, counted) && Balanced(counted, x.pcs, arrived, lost)
    }

    /** What one step of worker `w` does. */
    ghost predicate Leads(w: nat, rx: Input, next: Snap) {
      && w < |x.pcs| && |counted| == |x.conns|
      && Moves(x, w, rx, next.x)
      && next.arrived == arrived + (if x.pcs[w].Idle? && rx.Accepted() then [Stat(w, rx.src, Load(1, rx.size))] else [])
      && next.lost ==
         lost + (if x.pcs[w].Missed? && !rx.memory then [Stat(w, x.pcs[w].t, Load(1, x.pcs[w].size))] else [])
      && (match x.pcs[w]
          case Created(c, _) => next.counted == counted + [Stat(w, c.t, NOTHING)]
          case Found(c, size) => CountsAt(x.conns, c, Load(1, size), counted, next.counted)
          case _ => next.counted == counted)
    }
  }

  /** The list has no connection twice, and each has its own entry. */
  ghost predicate Tallies(conns: seq<RConn>, counted: seq<Stat>) {
    && |counted| == |conns|
    && (forall i | 0 <= i < |conns| :: counted[i].wid == conns[i].wid && counted[i].t == conns[i].t)
    && forall i, j | 0 <= i < j < |conns| :: conns[i] != conns[j]
  }

  /** One connection has counted more, and no other anything. */
  ghost predicate CountsAt(conns: seq<RConn>, c: RConn, more: Load, before: seq<Stat>, after: seq<Stat>)
    requires |before| == |conns|
  {
    && |after| == |before|
    && forall i | 0 <= i < |conns| :: after[i] == if conns[i] == c then before[i].Plus(more) else before[i]
  }

  /** What the tester is for: from whatever address, the packets a worker has accepted are those counted at
      its one connection with that address, those lost for want of memory, and the one in hand. */
  lemma CountedWhereReceived(s: Snap, w: nat, t: Addr)
    requires s.Sound() && w < |s.x.pcs|
    ensures Search(s.x.conns, w, t) == None ==>
      Total(s.arrived, From(w, t)) == Total(s.lost, From(w, t)).Plus(From(w, t).Share(InHand(w, s.x.pcs[w])))
    ensures forall i | 0 <= i < |s.x.conns| && s.x.conns[i].wid == w && s.x.conns[i].t == t ::
      Total(s.arrived, From(w, t)) ==
        s.counted[i].load.Plus(Total(s.lost, From(w, t))).Plus(From(w, t).Share(InHand(w, s.x.pcs[w])))
  {
    hide Index.Inv, InHand, Total;
    var whose := From(w, t);
    assert Balance(s.counted, s.x.pcs[w], s.arrived, s.lost, whose);
    SearchFails(s.x.conns, w, t);
    if Search(s.x.conns, w, t) == None {
      assert forall j | 0 <= j < |s.counted| :: s.x.conns[j] in s.x.conns;
      TotalOfNone(s.counted, whose);
    }
    forall i | 0 <= i < |s.x.conns| && s.x.conns[i].wid == w && s.x.conns[i].t == t
      ensures Total(s.counted, whose) == s.counted[i].load
    {
      forall j | 0 <= j < |s.counted| && whose.Covers(s.counted[j])
        ensures j == i
      {
        OneConnectionPerAddress(s.x, s.x.conns[i], s.x.conns[j]);
      }
      TotalOfOne(s.counted, i, whose);
    }
  }

  ghost predicate Moves(x: Index, w: nat, rx: Input, y: Index)
    requires w < |x.pcs|
  {
    match x.pcs[w]
    case Idle => y == if rx.Accepted() then x.At(w, Looking(rx.src, rx.size)) else x
    case Looking(t, size) => (
      match Search(x.conns, w, t)
      case None => y == x.At(w, Missed(t, size))
      case Some(c) => y == x.At(w, Found(c, size)))
    case Missed(t, size) =>
      if rx.memory then
        w < |y.pcs| && y.pcs[w].Created? && FreshFor(y.pcs[w].c, w, t, x) && y == x.At(w, Created(y.pcs[w].c, size))
      else y == x.At(w, Idle)
    case Created(c, size) => y == x.Register(w, c, size)
    case Linking(c, size) => Home(c) in x.hash && y == x.Link(w, c, size)
    case Found(_, _) => y == x.At(w, Idle)
  }

  /** How many steps of its own a worker needs before it can receive again. */
  function Ahead(pc: Pc): nat {
    match pc
    case Idle => 0
    case Looking(_, _) => 5
    case Missed(_, _) => 4
    case Created(_, _) => 3
    case Linking(_, _) => 2
    case Found(_, _) => 1
  }

  lemma StepAdvances(s: Snap, v: nat, rx: Input, next: Snap, w: nat)
    requires s.Leads(v, rx, next) && w < |s.x.pcs|
    ensures |next.x.pcs| == |s.x.pcs|
    ensures v != w ==> next.x.pcs[w] == s.x.pcs[w]
    ensures v == w && !s.x.pcs[w].Idle? ==> Ahead(next.x.pcs[w]) < Ahead(s.x.pcs[w])
  {
    hide Search;
  }

  /** Each state of the trace leads to the next by the step the schedule says. */
  ghost predicate Chain(trace: seq<Snap>, schedule: seq<(nat, Input)>) {
    && |trace| == |schedule| + 1
    && forall k :: 0 <= k < |schedule| ==> trace[k].Leads(schedule[k].0, schedule[k].1, trace[k + 1])
  }

  function StepsOf(schedule: seq<(nat, Input)>, w: nat): nat {
    if schedule == [] then 0
    else StepsOf(schedule[..|schedule| - 1], w) + if schedule[|schedule| - 1].0 == w then 1 else 0
  }

  ghost predicate IdleAt(trace: seq<Snap>, k: int, w: nat) {
    0 <= k < |trace| && w < |trace[k].x.pcs| && trace[k].x.pcs[w].Idle?
  }

  lemma {:induction false} BusyUses(trace: seq<Snap>, schedule: seq<(nat, Input)>, w: nat)
    requires Chain(trace, schedule) && w < |trace[0].x.pcs| && forall k :: 0 <= k < |trace| ==> !IdleAt(trace, k, w)
    ensures var n := |schedule|;
      && |trace[n].x.pcs| == |trace[0].x.pcs|
      && 1 <= Ahead(trace[n].x.pcs[w]) <= Ahead(trace[0].x.pcs[w]) - StepsOf(schedule, w)
    decreases |schedule|
  {
    hide Snap.Leads, Ahead;
    var n := |schedule|;
    assert !IdleAt(trace, n, w);
    if n > 0 {
      assert forall k :: 0 <= k < n ==> IdleAt(trace[..n], k, w) == IdleAt(trace, k, w);
      BusyUses(trace[..n], schedule[..n - 1], w);
      assert trace[n - 1].Leads(schedule[n - 1].0, schedule[n - 1].1, trace[n]);
      assert !IdleAt(trace, n - 1, w);
      StepAdvances(trace[n - 1], schedule[n - 1].0, schedule[n - 1].1, trace[n], w);
    }
    BusyIsAhead(trace[n].x.pcs[w]);
  }

  lemma BusyIsAhead(pc: Pc)
    ensures Ahead(pc) <= 5 && (!pc.Idle? ==> Ahead(pc) >= 1)
  {
  }

  /** No packet stays in hand: whatever the other workers do, five steps of a worker's own are enough to have
      counted it or lost it and to be ready for the next. */
  lemma ReadyAgain(trace: seq<Snap>, schedule: seq<(nat, Input)>, w: nat)
    requires Chain(trace, schedule) && w < |trace[0].x.pcs| && StepsOf(schedule, w) >= 5
    ensures exists k :: IdleAt(trace, k, w)
  {
    hide Snap.Leads;
    if forall k :: 0 <= k < |trace| ==> !IdleAt(trace, k, w) {
      BusyUses(trace, schedule, w);
      BusyIsAhead(trace[0].x.pcs[w]);
    }
  }

  ghost predicate FreshFor(c: RConn, w: nat, t: Addr, x: Index) {
    c.wid == w && c.t == t && c !in x.conns
  }

  ghost function StatsOf(conns: seq<RConn>): (stats: seq<Stat>)
    reads conns
    ensures |stats| == |conns|
  {
    seq(|conns|, i requires 0 <= i < |conns| reads conns =>
      Stat(conns[i].wid, conns[i].t, Load(conns[i].npktsRx, conns[i].nbytesRx)))
  }

  class Receiver {
    var hash: map<Slot, seq<RConn>>
    var conns: seq<RConn>
    var pcs: seq<Pc>
    var cidSeed: int
    var nConns: int
    ghost var arrived: seq<Stat>   // the valid packets received
    ghost var lost: seq<Stat>      // those dropped because memory ran out
    ghost var repr: set<RConn>

    ghost function Struct(): Index
      reads this
    {
      Index(hash, conns, pcs)
    }

    ghost function Stats(): (stats: seq<Stat>)
      reads `conns, `repr, repr
      requires forall c :: c in conns ==> c in repr
      ensures |stats| == |conns|
    {
      StatsOf(conns)
    }

    ghost function Snapshot(): Snap
      reads this, repr
      requires Owned()
    {
      Snap(Struct(), Stats(), arrived, lost)
    }

    ghost predicate Owned()
      reads this
    {
      && (forall c :: c in conns ==> c in repr)
      && forall w :: 0 <= w < |pcs| && pcs[w].Created? ==> pcs[w].c in repr
    }

    /** The identifiers of the list are 0, 1, 2, ... in list order. */
    ghost predicate Numbered()
      reads this, repr
      requires Owned()
    {
      && cidSeed == nConns == |conns|
      && forall i :: 0 <= i < |conns| ==> conns[i].cid == i
    }

    ghost predicate Blank()
      reads this, repr
      requires Owned()
    {
      forall w :: 0 <= w < |pcs| && pcs[w].Created? ==> pcs[w].c.npktsRx == 0 && pcs[w].c.nbytesRx == 0
    }

    ghost predicate Valid()
      reads this, repr
    {
      Struct().Inv() && Owned() && Numbered() && Blank() && Balanced(Stats(), pcs, arrived, lost)
    }

    constructor (n: nat)
      ensures Valid() && |pcs| == n && conns == []
    {
      hide Index.Inv, Balanced, Emptied;
      hash, conns, cidSeed, nConns := map[], [], 0, 0;
      pcs := seq(n, _ => Idle);
      arrived, lost := [], [];
      repr := {};
      new;
      EmptyTable();
      for w := 0 to n
        modifies `hash
        invariant Emptied(hash, w, 0, 0)
      {
        InitTable(w);
      }
      AllIdle(hash, pcs);
      NothingBalances(pcs);
      assert Stats() == [];
    }

    /** A worker empties the buckets of its own table. */
    method InitTable(w: nat)
      requires Emptied(hash, w, 0, 0)
      modifies `hash
      ensures Emptied(hash, w + 1, 0, 0)
    {
      for i: nat := 0 to MAX_PORTS
        invariant Emptied(hash, w, i, 0)
      {
        for j: nat := 0 to MAX_ADDR_HASH_SZ
          invariant Emptied(hash, w, i, j)
        {
          hash := hash[Slot(w, i, j) := []];
        }
      }
    }

    /** A datagram is read; it is taken only when it is a whole header with the right signature. */
    method Receive(w: nat, rx: Input)
      requires Valid() && w < |pcs| && pcs[w].Idle?
      modifies `pcs, `arrived
      ensures Valid()
      ensures if rx.rxLen == 16 && rx.sig == 0xabcddcba then
          && pcs == old(pcs)[w := Looking(rx.src, rx.size)]
          && arrived == old(arrived) + [Stat(w, rx.src, Load(1, rx.size))]
        else
          pcs == old(pcs) && arrived == old(arrived)
    {
      hide Index.Inv, Balance;
      if rx.Accepted() {
        ghost var x := Struct();
        var pc := Looking(rx.src, rx.size);
        SlotExists(x, w, rx.src);
        MoveKeeps(x, w, pc);
        ArrivedBalances(Stats(), pcs, arrived, lost, w, pc);
        arrived := arrived + [InHand(w, pc)];
        pcs := pcs[w := pc];
      }
    }

    /** The worker walks the bucket of the address, and stops at the first connection with it. */
    method Lookup(w: nat)
      requires Valid() && w < |pcs| && pcs[w].Looking?
      modifies `pcs
      ensures Valid()
      ensures var pc := old(pcs[w]);
        pcs == old(pcs)[w := match Search(conns, w, pc.t)
                             case None => Missed(pc.t, pc.size)
                             case Some(c) => Found(c, pc.size)]
      ensures pcs[w].Found? ==> pcs[w].c.t == old(pcs[w]).t
    {
      hide Balanced;
      ghost var x := Struct();
      var t, size := pcs[w].t, pcs[w].size;
      SlotExists(x, w, t);
      BucketScanIsListSearch(x, w, t);
      var bucket := hash[SlotOf(w, t)];
      var i := 0;
      while i < |bucket| && bucket[i].t != t
        invariant 0 <= i <= |bucket|
        invariant Scan(bucket, t) == Scan(bucket[i..], t)
      {
        assert bucket[i..][1..] == bucket[i + 1..];
        i := i + 1;
      }
      ScanFails(bucket, t);
      assert x.BucketOk(SlotOf(w, t), bucket);
      var pc := if i < |bucket| then Found(bucket[i], size) else Missed(t, size);
      MoveKeeps(x, w, pc);
      MovedBalances(Stats(), pcs, arrived, lost, w, pc);
      pcs := pcs[w := pc];
    }

    /** A record for a new connection, if there is memory for it; otherwise the packet goes uncounted. */
    method Allocate(w: nat, memory: bool)
      requires Valid() && w < |pcs| && pcs[w].Missed?
      modifies `pcs, `lost, `repr
      ensures Valid() && old(repr) <= repr && fresh(repr - old(repr))
      ensures |pcs| == |old(pcs)|
      ensures memory ==> pcs[w].Created? && fresh(pcs[w].c) && pcs[w].size == old(pcs[w].size)
      ensures memory ==> pcs == old(pcs)[w := pcs[w]] && pcs[w].c.t == old(pcs[w].t) && lost == old(lost)
      ensures memory ==> FreshFor(pcs[w].c, w, old(pcs[w].t), Struct())
      ensures !memory ==> pcs == old(pcs)[w := Idle] && repr == old(repr)
      ensures !memory ==> lost == old(lost) + [Stat(w, old(pcs[w].t), Load(1, old(pcs[w].size)))]
    {
      hide Index.Inv, Balance;
      var t, size := pcs[w].t, pcs[w].size;
      ghost var x := Struct();
      PcHolds(x, w);
      if memory {
        var c := new RConn(t, w);
        MoveKeeps(x, w, Created(c, size));
        MovedBalances(Stats(), pcs, arrived, lost, w, Created(c, size));
        repr := repr + {c};
        pcs := pcs[w := Created(c, size)];
      } else {
        MoveKeeps(x, w, Idle);
        LostBalances(Stats(), pcs, arrived, lost, w);
        lost := lost + [InHand(w, pcs[w])];
        pcs := pcs[w := Idle];
      }
    }

    /** Under the lock: the connection takes the next identifier and joins the tail of the list. */
    method Register(w: nat)
      requires Valid() && w < |pcs| && pcs[w].Created?
      modifies `pcs, `conns, `cidSeed, `nConns, pcs[w].c`cid
      ensures Valid() && Struct() == old(Struct()).Register(w, old(pcs[w].c), old(pcs[w].size))
      ensures old(pcs[w].c).cid == old(cidSeed) && nConns == old(nConns) + 1
      ensures Stats() == old(Stats()) + [Stat(w, old(pcs[w].c).t, NOTHING)]
    {
      hide Index.Inv, Balance;
      var c, size := pcs[w].c, pcs[w].size;
      ghost var x := Struct();
      PcHolds(x, w);
      RegisterKeeps(x, w, c, size);
      RegisteredBalances(Stats(), pcs, arrived, lost, w, Linking(c, size), Stat(w, c.t, NOTHING));
      label before:
      c.cid := cidSeed;
      cidSeed := cidSeed + 1;
      conns := conns + [c];
      nConns := nConns + 1;
      pcs := pcs[w := Linking(c, size)];
      assert Stats() == old@before(Stats()) + [Stat(w, c.t, NOTHING)];
    }

    /** The connection joins the head of its bucket. */
    method Link(w: nat)
      requires Valid() && w < |pcs| && pcs[w].Linking?
      modifies `pcs, `hash
      ensures Valid() && Home(old(pcs[w].c)) in old(hash)
      ensures Struct() == old(Struct()).Link(w, old(pcs[w].c), old(pcs[w].size))
    {
      hide Index.Inv, Balance;
      var c, size := pcs[w].c, pcs[w].size;
      ghost var x := Struct();
      PcHolds(x, w);
      LinkKeeps(x, w, c, size);
      MovedBalances(Stats(), pcs, arrived, lost, w, Found(c, size));
      hash := hash[Home(c) := [c] + hash[Home(c)]];
      pcs := pcs[w := Found(c, size)];
    }

    /** The packet is counted at its connection, which is always the worker's own. */
    method Count(w: nat)
      requires Valid() && w < |pcs| && pcs[w].Found?
      modifies `pcs, pcs[w].c`npktsRx, pcs[w].c`nbytesRx
      ensures Valid() && pcs == old(pcs)[w := Idle] && old(pcs[w].c).wid == w
      ensures var c := old(pcs[w].c);
        c.npktsRx == old(pcs[w].c.npktsRx) + 1 && c.nbytesRx == old(pcs[w].c.nbytesRx) + old(pcs[w].size)
      ensures CountsAt(conns, old(pcs[w].c), Load(1, old(pcs[w].size)), old(Stats()), Stats())
    {
      hide Index.Inv, Balance;
      var c, size := pcs[w].c, pcs[w].size;
      ghost var x := Struct();
      PcHolds(x, w);
      assert c.wid == w;
      ghost var i := c.cid;
      forall v | 0 <= v < |pcs| && pcs[v].Created?
        ensures pcs[v].c != c
      {
        PcHolds(x, v);
      }
      MoveKeeps(x, w, Idle);
      CountedBalances(Stats(), pcs, arrived, lost, w, i);
      label before:
      c.nbytesRx := c.nbytesRx + size;
      c.npktsRx := c.npktsRx + 1;
      pcs := pcs[w := Idle];
      assert Stats() == old@before(Stats())[i := old@before(Stats())[i].Plus(Load(1, size))];
    }

    lemma SnapshotIsSound()
      requires Valid()
      ensures Snapshot().Sound()
    {
      hide Index.Inv, Balanced;
    }

    /** Worker `w` takes its next step. */
    method Step(w: nat, rx: Input)
      requires Valid() && w < |pcs|
      modifies this, repr
      ensures Valid() && |pcs| == |old(pcs)| && old(conns) <= conns
      ensures old(Snapshot()).Leads(w, rx, Snapshot()) && (rx.memory ==> lost == old(lost))
      ensures fresh(repr - old(repr))
    {
      hide Index.Inv, Balance, Search;
      PcHolds(Struct(), w);
      match pcs[w]
      case Idle => Receive(w, rx);
      case Looking(_, _) => Lookup(w);
      case Missed(_, _) => Allocate(w, rx.memory);
      case Created(_, _) => Register(w);
      case Linking(_, _) => Link(w);
      case Found(_, _) => Count(w);
    }

    /** Any interleaving of the workers' steps: `trace` is where each of them left the receiver. */
    method Run(schedule: seq<(nat, Input)>) returns (ghost trace: seq<Snap>)
      requires Valid() && forall k :: 0 <= k < |schedule| ==> schedule[k].0 < |pcs|
      modifies this, repr
      ensures Valid() && |pcs| == |old(pcs)| && old(conns) <= conns
      ensures Chain(trace, schedule) && trace[0] == old(Snapshot()) && trace[|schedule|] == Snapshot()
      ensures forall k :: 0 <= k <= |schedule| ==> trace[k].Sound()
      ensures (forall k :: 0 <= k < |schedule| ==> schedule[k].1.memory) ==> lost == old(lost)
    {
      hide Index.Inv, Balanced, Snap.Leads, Snap.Sound;
      trace := [Snapshot()];
      SnapshotIsSound();
      for k := 0 to |schedule|
        invariant Valid() && |pcs| == |old(pcs)| && old(conns) <= conns && fresh(repr - old(repr))
        invariant |trace| == k + 1 && trace[0] == old(Snapshot()) && trace[k] == Snapshot()
        invariant forall j :: 0 <= j < k ==> trace[j].Leads(schedule[j].0, schedule[j].1, trace[j + 1])
        invariant forall j :: 0 <= j <= k ==> trace[j].Sound()
        invariant (forall j :: 0 <= j < k ==> schedule[j].1.memory) ==> lost == old(lost)
      {
        Step(schedule[k].0, schedule[k].1);
        trace := trace + [Snapshot()];
        SnapshotIsSound();
      }
    }
  }

  /** Whether slot `s` comes before the slot at row `i`, column `j` of worker `w`. */
  predicate Before(s: Slot, w: nat, i: nat, j: nat) {
    && s.row < MAX_PORTS && s.col < MAX_ADDR_HASH_SZ
    && (s.wid < w || (s.wid == w && (s.row < i || (s.row == i && s.col < j))))
  }

  ghost predicate Emptied(hash: map<Slot, seq<RConn>>, w: nat, i: nat, j: nat) {
    && (forall s: Slot :: s in hash <==> Before(s, w, i, j))
    && forall s :: s in hash ==> hash[s] == []
  }

  lemma EmptyTable()
    ensures Emptied(map[], 0, 0, 0)
  {
  }

  lemma AllIdle(hash: map<Slot, seq<RConn>>, pcs: seq<Pc>)
    requires Emptied(hash, |pcs|, 0, 0) && forall w :: 0 <= w < |pcs| ==> pcs[w] == Idle
    ensures Index(hash, [], pcs).Inv()
  {
  }
}
