/** `data_rank` (vns/vns_utils.cc:125-161): a queue of the last hundred values, and a nested loop that
    selects the n-th largest of them while the queue is rotated. */
module DataRank {
  import opened Division

  const WIN_LEN := 100

  /** How many elements of `s` are at least `x`. */
  function AtLeast(s: seq<real>, x: real): (n: nat)
    ensures n <= |s|
  {
    if s == [] then 0 else AtLeast(s[..|s| - 1], x) + One(s[|s| - 1], x)
  }

  function One(v: real, x: real): nat {
    if v >= x then 1 else 0
  }

  /** `r` is the n-th largest of `s`: n elements are at least `r`, and fewer are at least anything
      larger. */
  ghost predicate IsNthLargest(s: seq<real>, n: nat, r: real) {
    AtLeast(s, r) >= n && forall x | x > r :: AtLeast(s, x) < n
  }

  /** `top` holds the largest |top| elements of `s`, in descending order. */
  ghost predicate IsTop(top: seq<real>, s: seq<real>) {
    && Descending(top)
    && forall x :: AtLeast(top, x) == if AtLeast(s, x) < |top| then AtLeast(s, x) else |top|
  }

  lemma {:induction false} AtLeastUpdate(s: seq<real>, j: nat, v: real, x: real)
    requires j < |s|
    ensures AtLeast(s[j := v], x) + One(s[j], x) == AtLeast(s, x) + One(v, x)
  {
    var n := |s| - 1;
    if j < n {
      assert s[j := v][..n] == s[..n][j := v];
      AtLeastUpdate(s[..n], j, v, x);
    } else {
      assert s[j := v][..n] == s[..n];
    }
  }

  lemma {:induction false} AtLeastAll(s: seq<real>, x: real)
    ensures (forall i | 0 <= i < |s| :: s[i] >= x) ==> AtLeast(s, x) == |s|
    ensures (forall i | 0 <= i < |s| :: s[i] < x) ==> AtLeast(s, x) == 0
  {
    if s != [] {
      AtLeastAll(s[..|s| - 1], x);
    }
  }

  lemma {:induction false} AtLeastConcat(s: seq<real>, t: seq<real>, x: real)
    ensures AtLeast(s + t, x) == AtLeast(s, x) + AtLeast(t, x)
  {
    if t == [] {
      assert s + t == s;
    } else {
      assert (s + t)[..|s + t| - 1] == s + t[..|t| - 1];
      AtLeastConcat(s, t[..|t| - 1], x);
    }
  }

  /** The last of the top n is the n-th largest. */
  lemma TopGivesNth(top: seq<real>, s: seq<real>)
    requires IsTop(top, s) && top != []
    ensures IsNthLargest(s, |top|, top[|top| - 1])
  {
    var n := |top|;
    AtLeastAll(top, top[n - 1]);
    forall x | x > top[n - 1] ensures AtLeast(s, x) < n {
      LastBelow(top, x);
    }
  }

  lemma LastBelow(top: seq<real>, x: real)
    requires top != [] && top[|top| - 1] < x
    ensures AtLeast(top, x) < |top|
  {
  }

  // ---------------------------------------------------------------- cyclic reads

  /** The queue after `i` times moving its front to its back. */
  function Rotated(w: seq<real>, i: nat): (r: seq<real>)
    ensures |r| == |w|
  {
    if i == 0 || w == [] then w
    else
      var v := Rotated(w, i - 1);
      v[1..] + [v[0]]
  }

  /** The values read on the way. */
  function Reads(w: seq<real>, i: nat): (r: seq<real>)
    requires w != []
    ensures |r| == i
  {
    if i == 0 then [] else Reads(w, i - 1) + [Rotated(w, i - 1)[0]]
  }

  /** The k-th read is the k-th element, counted around the queue; the queue ends up rotated by as
      much as the reads exceed whole turns. */
  lemma {:induction false} RotatedIs(w: seq<real>, i: nat)
    requires w != []
    ensures Rotated(w, i) == w[Phase(i, |w|)..] + w[..Phase(i, |w|)]
    ensures i < |w| ==> Phase(i, |w|) == i
    ensures forall k | 0 <= k < i :: Reads(w, i)[k] == w[Phase(k, |w|)]
    ensures i <= |w| ==> Reads(w, i) == w[..i]
    ensures i == |w| ==> Rotated(w, i) == w && Reads(w, i) == w
  {
    hide Phase;
    FirstPhase(|w|);
    if i > 0 {
      RotatedIs(w, i - 1);
      NextPhase(i - 1, |w|);
      RotatedOnce(w, Phase(i - 1, |w|));
    }
  }

  lemma RotatedOnce(w: seq<real>, p: nat)
    requires p < |w|
    ensures var v := w[p..] + w[..p];
      v[0] == w[p] && v[1..] + [v[0]] == if p == |w| - 1 then w else w[p + 1..] + w[..p + 1]
  {
  }

  /** The padding the selection starts from, below every value that counts. */
  function Padding(n: nat): seq<real> {
    seq(n, _ => -1.0)
  }

  /** Among values that are not negative the padding does not count: the n-th largest of padding and
      values is the n-th largest of the values. */
  lemma PaddingDoesNotCount(s: seq<real>, n: nat, r: real)
    requires 0 < n <= |s| && (forall i | 0 <= i < |s| :: s[i] >= 0.0)
    requires IsNthLargest(Padding(n) + s, n, r)
    ensures IsNthLargest(s, n, r)
  {
    AtLeastAll(s, 0.0);
    AtLeastConcat(Padding(n), s, 0.0);
    assert r >= 0.0;
    forall x | x >= 0.0 ensures AtLeast(Padding(n) + s, x) == AtLeast(s, x) {
      AtLeastConcat(Padding(n), s, x);
      AtLeastAll(Padding(n), x);
    }
  }

  /** With a full queue, `GetRank` answers with the n-th largest value in the queue and leaves the
      queue as it was. */
  lemma FullQueueRank(w: seq<real>, n: nat, r: real)
    requires |w| == WIN_LEN && 0 < n <= WIN_LEN && (forall i | 0 <= i < |w| :: w[i] >= 0.0)
    requires IsNthLargest(Padding(n) + Reads(w, WIN_LEN), n, r)
    ensures IsNthLargest(w, n, r) && Rotated(w, WIN_LEN) == w
  {
    hide IsNthLargest;
    RotatedIs(w, WIN_LEN);
    PaddingDoesNotCount(w, n, r);
  }

  class DataRank {
    const percentile: real
    var window: seq<real>

    /** At least one value is asked for, and the queue holds no more than a hundred. */
    ghost predicate Valid()
      reads this
    {
      percentile >= 0.0 && Rank() >= 1 && |window| <= WIN_LEN
    }

    /** Which largest value `GetRank` returns. */
    function Rank(): int {
      ((1.0 - percentile) * WIN_LEN as real).Floor
    }

    /** Of a hundred values, those not below the percentile, rounded down. */
    lemma RankIs()
      ensures Rank() as real <= (1.0 - percentile) * 100.0 < Rank() as real + 1.0
    {
    }

    constructor (val: real)
      requires val >= 0.0 && (1.0 - val) * WIN_LEN as real >= 1.0
      ensures Valid() && window == [] && percentile == val
    {
      percentile := val;
      window := [];
    }

    method Add(val: real)
      requires Valid()
      modifies this
      ensures Valid()
      ensures window == if |old(window)| == 100 then old(window)[1..] + [val] else old(window) + [val]
    {
      window := window + [val];
      if |window| > WIN_LEN {
        window := window[1..];
      }
    }

    method Clear()
      requires Valid()
      modifies this
      ensures Valid() && window == []
    {
      window := [];
    }

    /** A hundred reads go round the queue; the result is the n-th largest of them, the padding
        standing in when fewer than n count. */
    method GetRank() returns (r: real)
      requires Valid()
      modifies this
      ensures Valid() && window == Rotated(old(window), WIN_LEN)
      ensures old(window) == [] ==> r == 0.0
      ensures old(window) != [] ==> IsNthLargest(Padding(Rank()) + Reads(old(window), WIN_LEN), Rank(), r)
    {
      hide IsTop, IsNthLargest;
      var n := Rank();
      var largest := new real[WIN_LEN + 1];
      ghost var w := window;
      for i := 0 to n
        invariant window == w
        invariant forall k | 0 <= k < i :: largest[k] == -1.0
      {
        largest[i] := -1.0;
      }
      if |window| == 0 {
        EmptyStays(WIN_LEN);
        return 0.0;
      }
      PaddingIsTop(largest[..n], n, w);
      for i := 0 to WIN_LEN
        invariant |window| == |w| && window == Rotated(w, i)
        invariant IsTop(largest[..n], Padding(n) + Reads(w, i))
      {
        var val := window[0];
        window := window[1..];
        Bubble(largest, n, val, Padding(n) + Reads(w, i));
        assert Padding(n) + Reads(w, i) + [val] == Padding(n) + Reads(w, i + 1);
        window := window + [val];
      }
      TopGivesNth(largest[..n], Padding(n) + Reads(w, WIN_LEN));
      return largest[n - 1];
    }
  }

  lemma EmptyStays(i: nat)
    ensures Rotated([], i) == []
  {
  }

  lemma PaddingIsTop(top: seq<real>, n: nat, w: seq<real>)
    requires |top| == n && w != [] && forall k | 0 <= k < n :: top[k] == -1.0
    ensures IsTop(top, Padding(n) + Reads(w, 0))
  {
    assert top == Padding(n) == Padding(n) + Reads(w, 0);
  }

  lemma BubbledIsTop(top: seq<real>, top': seq<real>, tmp: real, s: seq<real>, val: real)
    requires IsTop(top, s) && |top'| == |top|
    requires Descending(top') && NoneBelow(top', |top'|, tmp)
    requires forall x :: AtLeast(top', x) + One(tmp, x) == AtLeast(top, x) + One(val, x)
    ensures IsTop(top', s + [val])
  {
    forall x ensures AtLeast(s + [val], x) == AtLeast(s, x) + One(val, x) {
      assert (s + [val])[..|s|] == s;
    }
    forall x | tmp >= x ensures AtLeast(top', x) == |top'| {
      AtLeastAll(top', x);
    }
  }

  ghost predicate Descending(s: seq<real>) {
    forall i, j | 0 <= i < j < |s| :: s[i] >= s[j]
  }

  /** None of the first `j` elements is below `v`. */
  ghost predicate NoneBelow(s: seq<real>, j: int, v: real)
    requires j <= |s|
  {
    forall k | 0 <= k < j :: v <= s[k]
  }

  /** One comparison of the inner loop: what it beats it swaps with, and carries on the smaller. */
  lemma CarryOn(s: seq<real>, j: nat, v: real)
    requires j < |s| && Descending(s) && NoneBelow(s, j, v)
    ensures v > s[j] ==> Descending(s[j := v]) && NoneBelow(s[j := v], j + 1, s[j])
    ensures v > s[j] ==> forall x :: AtLeast(s[j := v], x) + One(s[j], x) == AtLeast(s, x) + One(v, x)
    ensures v <= s[j] ==> NoneBelow(s, j + 1, v)
    ensures v <= s[|s| - 1] ==> v <= s[j]
  {
    forall x
      ensures AtLeast(s[j := v], x) + One(s[j], x) == AtLeast(s, x) + One(v, x)
    {
      AtLeastUpdate(s, j, v, x);
    }
  }

  /** The inner loop: `val` is carried along the descending prefix, swapped with everything it beats. */
  method Bubble(largest: array<real>, n: nat, val: real, ghost s: seq<real>)
    requires 0 < n <= largest.Length && IsTop(largest[..n], s)
    modifies largest
    ensures IsTop(largest[..n], s + [val])
  {
    hide IsTop, Descending, NoneBelow, AtLeast, One;
    var tmp := val;
    ghost var top := largest[..n];
    TopDescends(top, s);
    for j := 0 to n
      invariant Descending(largest[..n]) && NoneBelow(largest[..n], j, tmp)
      invariant forall x :: AtLeast(largest[..n], x) + One(tmp, x) == AtLeast(top, x) + One(val, x)
    {
      ghost var before := largest[..n];
      CarryOn(before, j, tmp);
      if tmp > largest[n - 1] {
        if tmp > largest[j] {
          var t := largest[j];
          largest[j] := tmp;
          assert largest[..n] == before[j := tmp];
          tmp := t;
        }
      }
    }
    BubbledIsTop(top, largest[..n], tmp, s, val);
  }

  lemma TopDescends(top: seq<real>, s: seq<real>)
    requires IsTop(top, s)
    ensures Descending(top) && forall v :: NoneBelow(top, 0, v)
  {
  }
}
