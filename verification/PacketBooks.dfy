/** The controller's record of the packets it has been told about (vns/vns_eyenet.cc:252-278 and
    295-303): which ids are in flight, which were acknowledged and which were given up as lost. */
module PacketBooks {
  import opened IntSets

  datatype Packet = Packet(intersend: real, rtt: real, sentTs: real)

  /** `acked` and `lost` are history: the ids classified since `initialize`. */
  datatype Books = Books(unacked: map<int, Packet>, nlost: int, nsent: int, acked: set<int>, lost: set<int>) {

    function Sent(id: int, p: Packet): Books {
      this.(unacked := unacked[id := p], nsent := nsent + 1)
    }

    /** The ids an acknowledgement of `seqNo` gives up as lost: everything older than the id it
        matches, and nothing when it matches none. */
    function LostBy(seqNo: int): set<int> {
      if seqNo in unacked then set k | k in unacked.Keys && k < seqNo else {}
    }

    function Acknowledged(seqNo: int): Books {
      if seqNo !in unacked then this
      else Books(map k | k in unacked.Keys && k > seqNo :: unacked[k],
                 nlost + |LostBy(seqNo)|, nsent, acked + {seqNo}, lost + LostBy(seqNo))
    }

    /** Every id handed to `on_pkt_sent` since `initialize`. */
    function Issued(): set<int> {
      unacked.Keys + acked + lost
    }

    ghost predicate Unissued(id: int) {
      id >= 0 && forall k | k in Issued() :: k < id
    }

    /** No id is in two places. */
    ghost predicate Distinct() {
      unacked.Keys !! acked && unacked.Keys !! lost && acked !! lost
    }

    /** Every id is in exactly one place, and the counters agree with the places. */
    ghost predicate Balanced() {
      && Distinct() && nlost == |lost|
      && nsent == |unacked.Keys| + nlost + |acked|
    }

    /** Packets were sent in the order of their ids, none later than `now`. */
    ghost predicate Timely(now: real) {
      && (forall i, j | i in unacked && j in unacked && i <= j :: unacked[i].sentTs <= unacked[j].sentTs)
      && (forall k | k in unacked :: unacked[k].sentTs <= now)
    }
  }

  const EMPTY_BOOKS := Books(map[], 0, 0, {}, {})

  lemma Add1(a: set<int>, x: int)
    ensures |a + {x}| == if x in a then |a| else |a| + 1
  {
    if x in a {
      assert a + {x} == a;
    }
  }

  /** Sending keeps the books balanced exactly when the id is not already in flight; ids already
      classified must not come back. */
  lemma SentKeepsBalance(b: Books, id: int, p: Packet)
    requires b.Balanced() && id !in b.acked && id !in b.lost
    ensures b.Sent(id, p).Balanced() <==> id !in b.unacked
  {
  }

  lemma Partition(keys: set<int>, x: int, above: set<int>, below: set<int>)
    requires x in keys
    requires above == set k | k in keys && k > x
    requires below == set k | k in keys && k < x
    ensures keys == above + below + {x}
    ensures |keys| == |above| + |below| + 1
  {
  }

  lemma MovedStaysDistinct(keys: set<int>, acked: set<int>, lost: set<int>, x: int, above: set<int>, below: set<int>)
    requires keys !! acked && keys !! lost && acked !! lost
    requires keys == above + below + {x} && above !! below && x !in above && x !in below
    ensures above !! acked + {x} && above !! lost + below && acked + {x} !! lost + below
    ensures above + (acked + {x}) + (lost + below) == keys + acked + lost
    ensures x !in acked + lost && below !! acked + lost
  {
  }

  /** An acknowledgement removes exactly the ids up to the one it matches and classifies each of them
      once: the one it matches as acknowledged, the older ones as lost. */
  lemma AcknowledgedClassifies(b: Books, seqNo: int)
    requires b.Distinct() && seqNo in b.unacked
    ensures var b' := b.Acknowledged(seqNo);
      && b.unacked.Keys == b'.unacked.Keys + b.LostBy(seqNo) + {seqNo}
      && (forall k | k in b'.unacked :: k > seqNo && b'.unacked[k] == b.unacked[k])
      && b'.acked == b.acked + {seqNo} && b'.lost == b.lost + b.LostBy(seqNo)
      && seqNo !in b.acked + b.lost && b.LostBy(seqNo) !! b.acked + b.lost
      && b'.Distinct() && b'.Issued() == b.Issued()
  {
    var b', gone := b.Acknowledged(seqNo), b.LostBy(seqNo);
    assert b'.unacked.Keys == set k | k in b.unacked.Keys && k > seqNo;
    Partition(b.unacked.Keys, seqNo, b'.unacked.Keys, gone);
    MovedStaysDistinct(b.unacked.Keys, b.acked, b.lost, seqNo, b'.unacked.Keys, gone);
  }

  lemma NothingMatched(b: Books, seqNo: int)
    requires seqNo !in b.unacked
    ensures b.Acknowledged(seqNo) == b && b.LostBy(seqNo) == {}
  {
  }

  lemma AcknowledgedKeepsBalance(b: Books, seqNo: int)
    requires b.Balanced()
    ensures b.Acknowledged(seqNo).Balanced() && b.Acknowledged(seqNo).Issued() == b.Issued()
  {
    if seqNo in b.unacked {
      AcknowledgedClassifies(b, seqNo);
      var b', gone := b.Acknowledged(seqNo), b.LostBy(seqNo);
      assert b'.unacked.Keys == set k | k in b.unacked.Keys && k > seqNo;
      Partition(b.unacked.Keys, seqNo, b'.unacked.Keys, gone);
      Add1(b.acked, seqNo);
      assert |b.lost + gone| == |b.lost| + |gone|;
    }
  }

  lemma SentKeepsTimely(b: Books, id: int, p: Packet, now: real)
    requires b.Timely(now) && b.Unissued(id) && p.sentTs == now
    ensures b.Sent(id, p).Timely(now)
  {
    forall k | k in b.unacked ensures k < id {
      assert k in b.Issued();
    }
  }

  lemma AcknowledgedKeepsTimely(b: Books, seqNo: int, now: real)
    requires b.Timely(now)
    ensures b.Acknowledged(seqNo).Timely(now)
  {
  }

  lemma AcknowledgedKeepsKeys(b: Books, seqNo: int)
    ensures b.Acknowledged(seqNo).unacked.Keys <= b.unacked.Keys
  {
  }

  /** The first entry of the map is the oldest packet in flight. */
  lemma LeastIsOldest(b: Books, now: real, k: int)
    requires b.Timely(now) && k in b.unacked
    ensures b.unacked[Least(b.unacked.Keys)].sentTs <= b.unacked[k].sentTs
  {
  }

  // ---------------------------------------------------------------- the walk, one entry at a time

  /** A walk in ascending order over `m` that stops after `seqNo`: `gone` was visited and erased,
      `rest` is what is left, `last` is the id visited last, or -1. */
  ghost predicate Walking(m: map<int, Packet>, seqNo: int, rest: map<int, Packet>, gone: set<int>, last: int) {
    && rest == m - gone && gone <= m.Keys
    && (if gone == {} then last == -1 else last in gone && last <= seqNo)
    && (forall g | g in gone :: g <= last)
    && (gone != {} ==> forall k | k in m :: k >= -1 && (k in gone || k > last))
  }

  lemma WalkStarts(m: map<int, Packet>, seqNo: int)
    ensures Walking(m, seqNo, m, {}, -1)
  {
  }

  /** The next entry is out of order exactly when some id is below -1; otherwise visiting it keeps
      the walk going. */
  lemma WalkVisits(m: map<int, Packet>, seqNo: int, rest: map<int, Packet>, gone: set<int>, last: int, k: int)
    requires Walking(m, seqNo, rest, gone, last)
    requires k in rest.Keys && forall j | j in rest.Keys :: k <= j
    ensures k in m && k !in gone && rest[k] == m[k]
    ensures last > k <==> exists j :: j in m && j < -1
    ensures last <= k <= seqNo ==> Walking(m, seqNo, rest - {k}, gone + {k}, k)
  {
    assert forall j | j in m :: j in gone || j in rest.Keys;
    if last > k {
      assert k in m && k < -1;
    }
  }

  /** How many of the packets erased were lost. */
  function Dropped(gone: set<int>, seqNo: int): nat {
    |gone - {seqNo}|
  }

  lemma NoneDropped(seqNo: int)
    ensures Dropped({}, seqNo) == 0
  {
  }

  lemma DroppedGrows(gone: set<int>, k: int, seqNo: int)
    requires k !in gone
    ensures Dropped(gone + {k}, seqNo) == Dropped(gone, seqNo) + if k == seqNo then 0 else 1
  {
  }

  /** A walk that has nothing left up to `seqNo` has done what `Acknowledged` says. */
  lemma WalkEnds(b: Books, seqNo: int, rest: map<int, Packet>, gone: set<int>, last: int)
    requires Walking(b.unacked, seqNo, rest, gone, last) && seqNo in b.unacked
    requires forall j | j in rest.Keys :: j > seqNo
    ensures seqNo in gone && gone - {seqNo} == b.LostBy(seqNo) && Dropped(gone, seqNo) == |b.LostBy(seqNo)|
    ensures rest == b.Acknowledged(seqNo).unacked
    ensures !exists j :: j in b.unacked && j < -1
  {
    assert forall j | j in b.unacked :: j in gone || j in rest.Keys;
    assert seqNo in gone;
    assert forall j | j in gone :: j <= seqNo;
  }
}
