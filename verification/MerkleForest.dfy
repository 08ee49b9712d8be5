/** The streaming tree digest.  It keeps at most `cap` leaves: when they are all
    in use, the leaves are hashed in pairs and every leaf from then on stands for
    twice as many blocks.  This is the algorithm on values, and what it keeps. */
module MerkleForest {
  import opened Prelude
  import opened Octets
  import opened TreeHash

  /** What a running digest holds: the leaves retained so far, the block digests
      waiting to become the next leaf, and the number of blocks in a leaf. */
  datatype Forest = Forest(nodes: seq<Bytes>, work: seq<Bytes>, perLeaf: nat)

  const EmptyForest := Forest([], [], 1)

  /** The leaf capacity for a number of levels. */
  function MaxLeaves(levels: nat): (n: nat)
    ensures n >= 1
    ensures if levels <= 1 then n == 1 else n >= 2 && n % 2 == 0
  {
    if levels <= 1 then 1 else var m := MaxLeaves(levels - 1); m + m
  }

  /** The capacity as it is computed: a 64-bit number is doubled. */
  function Capacity(levels: nat): nat {
    if levels <= 1 then 1 else 2 * Capacity(levels - 1) % TWO_64
  }

  method CalcMaxLeaves(levels: nat) returns (leaves: nat)
    ensures leaves == if levels <= 64 then MaxLeaves(levels) else 0
  {
    leaves := 1;
    var n := 1;
    while n < levels
      invariant 1 <= n && (n <= levels || n == 1) && leaves == Capacity(n)
    {
      leaves := leaves * 2 % TWO_64;
      n := n + 1;
    }
    CapacityExact(levels);
  }

  const TWO_64: nat := 0x1_0000_0000_0000_0000

  lemma MaxLeavesBy16(n: nat)
    requires n >= 1
    ensures MaxLeaves(n + 4) == 16 * MaxLeaves(n)
  {
    assert MaxLeaves(n + 1) == 2 * MaxLeaves(n);
    assert MaxLeaves(n + 2) == 4 * MaxLeaves(n);
    assert MaxLeaves(n + 3) == 8 * MaxLeaves(n);
  }

  lemma MaxLeavesBy65536(n: nat)
    requires n >= 1
    ensures MaxLeaves(n + 16) == 65536 * MaxLeaves(n)
  {
    hide MaxLeaves;
    MaxLeavesBy16(n);
    MaxLeavesBy16(n + 4);
    MaxLeavesBy16(n + 8);
    MaxLeavesBy16(n + 12);
  }

  lemma MaxLeavesOf65()
    ensures MaxLeaves(65) == TWO_64
  {
    MaxLeavesBy65536(1);
    MaxLeavesBy65536(17);
    MaxLeavesBy65536(33);
    MaxLeavesBy65536(49);
  }

  lemma {:induction false} MaxLeavesGrows(m: nat, n: nat)
    requires 1 <= m < n
    ensures 2 * MaxLeaves(m) <= MaxLeaves(n)
    decreases n
  {
    if m < n - 1 { MaxLeavesGrows(m, n - 1); }
  }

  lemma MaxLeavesFits(levels: nat)
    ensures levels <= 64 ==> MaxLeaves(levels) < TWO_64
    ensures levels == 65 ==> MaxLeaves(levels) == TWO_64
  {
    MaxLeavesOf65();
    if 1 < levels <= 64 { MaxLeavesGrows(levels, 65); }
  }

  lemma Wraps(n: nat)
    ensures n < TWO_64 ==> n % TWO_64 == n
    ensures n == TWO_64 ==> n % TWO_64 == 0
  {
  }

  lemma CapacityStep(levels: nat)
    requires levels > 1
    ensures Capacity(levels) == 2 * Capacity(levels - 1) % TWO_64 && MaxLeaves(levels) == 2 * MaxLeaves(levels - 1)
  {
  }

  /** The doubling loses nothing up to 64 levels, and everything beyond: a deeper tree
      has no room for a single leaf. */
  lemma {:induction false} CapacityExact(levels: nat)
    ensures Capacity(levels) == MaxLeaves(levels) <==> levels <= 64
    ensures Capacity(levels) == if levels <= 64 then MaxLeaves(levels) else 0
  {
    if levels > 1 {
      hide Capacity, MaxLeaves;
      CapacityExact(levels - 1);
      CapacityStep(levels);
      MaxLeavesFits(levels);
      Wraps(2 * Capacity(levels - 1));
    }
  }

  /** Doubling the blocks in a leaf once the leaves are all in use. */
  function MakeRoom(h: Hasher, cap: nat, f: Forest): Forest {
    if |f.nodes| == cap then Forest(PairUp(h, f.nodes), f.work, 2 * f.perLeaf) else f
  }

  /** Take in one block digest.  `None` is the failed assertion of the pairing
      step, which wants an even number of leaves. */
  function AddLeaf(h: Hasher, cap: nat, f: Forest, d: Bytes): Option<Forest> {
    if |f.nodes| == cap && cap % 2 == 1 then None
    else
      var g := MakeRoom(h, cap, f);
      var work := g.work + [d];
      if |work| == g.perLeaf then Some(Forest(g.nodes + [Root(h, work)], [], g.perLeaf))
      else Some(g.(work := work))
  }

  function Build(h: Hasher, cap: nat, ds: seq<Bytes>): Option<Forest>
    decreases |ds|
  {
    if ds == [] then Some(EmptyForest)
    else match Build(h, cap, ds[..|ds| - 1])
      case None => None
      case Some(f) => AddLeaf(h, cap, f, ds[|ds| - 1])
  }

  /** The retained leaves once the waiting digests are promoted as a last leaf. */
  function Flush(h: Hasher, f: Forest): seq<Bytes> {
    if f.work == [] then f.nodes else f.nodes + [Root(h, f.work)]
  }

  /** The leaves are the runs of `perLeaf` digests; what is short of one waits. */
  ghost predicate Covers(h: Hasher, f: Forest, ds: seq<Bytes>) {
    && IsPow2(f.perLeaf)
    && |f.work| < f.perLeaf
    && |f.work| <= |ds|
    && var n := |ds| - |f.work|;
    && Mul(|f.nodes|, f.perLeaf) == n
    && f.nodes == Group(h, ds[..n], f.perLeaf)
    && f.work == ds[n..]
  }

  /** Covers, within capacity, and with no more blocks in a leaf than needed. */
  ghost predicate Tight(h: Hasher, cap: nat, f: Forest, ds: seq<Bytes>) {
    && Covers(h, f, ds)
    && |f.nodes| <= cap
    && (|f.nodes| == cap ==> f.work == [])
    && (f.perLeaf > 1 ==> Mul(cap, f.perLeaf) < 2 * |ds|)
  }

  lemma CompactKeepsCover(h: Hasher, f: Forest, ds: seq<Bytes>)
    requires Covers(h, f, ds) && f.work == [] && |f.nodes| % 2 == 0
    ensures Covers(h, Forest(PairUp(h, f.nodes), [], 2 * f.perLeaf), ds)
  {
    hide Group, Root;
    var k := |f.nodes| / 2;
    assert |f.nodes| == 2 * k;
    MulTwice(k, f.perLeaf);
    assert ds[..|ds|] == ds;
    GroupDouble(h, ds, f.perLeaf);
  }

  lemma WaitKeepsCover(h: Hasher, f: Forest, ds: seq<Bytes>, d: Bytes)
    requires Covers(h, f, ds) && |f.work| + 1 < f.perLeaf
    ensures Covers(h, f.(work := f.work + [d]), ds + [d])
  {
    var n := |ds| - |f.work|;
    assert (ds + [d])[..n] == ds[..n] && (ds + [d])[n..] == ds[n..] + [d];
  }

  lemma PromoteKeepsCover(h: Hasher, f: Forest, ds: seq<Bytes>, d: Bytes)
    requires Covers(h, f, ds) && |f.work| + 1 == f.perLeaf
    ensures Covers(h, f.(nodes := f.nodes + [Root(h, f.work + [d])], work := []), ds + [d])
  {
    hide Group, Root, IsPow2;
    var last, all := f.work + [d], ds + [d];
    var n := |ds| - |f.work|;
    assert all[..|all|] == all == ds[..n] + last;
    GroupAppend(h, ds[..n], last, f.perLeaf, |f.nodes|);
  }

  lemma MakeRoomKeeps(h: Hasher, cap: nat, f: Forest, ds: seq<Bytes>)
    requires cap >= 1 && Tight(h, cap, f, ds) && (|f.nodes| == cap ==> cap % 2 == 0)
    ensures var g := MakeRoom(h, cap, f);
            && Covers(h, g, ds) && |g.nodes| < cap
            && (g.perLeaf > 1 ==> Mul(cap, g.perLeaf) <= 2 * |ds|)
  {
    if |f.nodes| == cap {
      CompactKeepsCover(h, f, ds);
      MulTwice(cap, f.perLeaf);
    }
  }

  /** One more block keeps the leaves covered, and doubles only when it must. */
  lemma AddLeafKeeps(h: Hasher, cap: nat, f: Forest, ds: seq<Bytes>, d: Bytes)
    requires cap >= 1 && Tight(h, cap, f, ds) && AddLeaf(h, cap, f, d).Some?
    ensures Tight(h, cap, AddLeaf(h, cap, f, d).value, ds + [d])
  {
    MakeRoomKeeps(h, cap, f, ds);
    var g := MakeRoom(h, cap, f);
    if |g.work| + 1 == g.perLeaf {
      PromoteKeepsCover(h, g, ds, d);
    } else {
      WaitKeepsCover(h, g, ds, d);
    }
  }

  lemma NothingTight(h: Hasher, cap: nat)
    requires cap >= 1
    ensures Tight(h, cap, EmptyForest, [])
  {
  }

  lemma {:induction false} BuildTight(h: Hasher, cap: nat, ds: seq<Bytes>)
    requires cap >= 1 && Build(h, cap, ds).Some?
    ensures Tight(h, cap, Build(h, cap, ds).value, ds)
    decreases |ds|
  {
    hide Tight, AddLeaf;
    if ds == [] {
      NothingTight(h, cap);
    } else {
      var init, d := ds[..|ds| - 1], ds[|ds| - 1];
      BuildTight(h, cap, init);
      AddLeafKeeps(h, cap, Build(h, cap, init).value, init, d);
      assert ds == init + [d];
    }
  }

  /** With room for a leaf at all, the pairing assertion fails exactly when a tree of at
      most one level is given a second block. */
  lemma {:induction false} BuildAborts(h: Hasher, levels: nat, ds: seq<Bytes>)
    requires levels <= 64
    ensures Build(h, Capacity(levels), ds).None? <==> levels <= 1 && |ds| >= 2
    decreases |ds|
  {
    CapacityExact(levels);
    var cap := MaxLeaves(levels);
    if ds != [] {
      var init := ds[..|ds| - 1];
      BuildAborts(h, levels, init);
      if cap == 1 && |init| == 1 {
        assert init[..0] == [];
        assert Build(h, cap, []) == Some(EmptyForest);
        assert Build(h, cap, init) == AddLeaf(h, cap, EmptyForest, init[0]);
      }
    }
  }

  lemma {:induction false} BuildEven(h: Hasher, cap: nat, ds: seq<Bytes>)
    requires cap % 2 == 0
    ensures Build(h, cap, ds).Some?
    decreases |ds|
  {
    if ds != [] { BuildEven(h, cap, ds[..|ds| - 1]); }
  }

  /** What can be built can be built up to any point. */
  lemma {:induction false} BuildPrefix(h: Hasher, cap: nat, ds: seq<Bytes>, n: nat)
    requires n <= |ds| && Build(h, cap, ds).Some?
    ensures Build(h, cap, ds[..n]).Some?
    decreases |ds|
  {
    if n == |ds| {
      assert ds[..n] == ds;
    } else {
      BuildPrefix(h, cap, ds[..|ds| - 1], n);
      assert ds[..|ds| - 1][..n] == ds[..n];
    }
  }

  lemma FlushIsGroup(h: Hasher, f: Forest, ds: seq<Bytes>)
    requires Covers(h, f, ds)
    ensures Flush(h, f) == Group(h, ds, f.perLeaf)
  {
    var n := |ds| - |f.work|;
    assert ds == ds[..n] + f.work;
    if f.work == [] {
      assert ds[..n] == ds;
    } else {
      GroupAppend(h, ds[..n], f.work, f.perLeaf, |f.nodes|);
    }
  }

  /** Whatever compactions happened on the way, the root over the retained leaves
      is the root over all block digests. */
  lemma RootOfBuild(h: Hasher, cap: nat, ds: seq<Bytes>)
    requires cap >= 1 && |ds| >= 1 && Build(h, cap, ds).Some?
    ensures |Flush(h, Build(h, cap, ds).value)| >= 1
    ensures Root(h, Flush(h, Build(h, cap, ds).value)) == Root(h, ds)
  {
    var f := Build(h, cap, ds).value;
    BuildTight(h, cap, ds);
    FlushIsGroup(h, f, ds);
    GroupRoot(h, ds, f.perLeaf);
  }

  lemma PerLeafLeast(cap: nat, b: nat, n: nat, c: nat)
    requires IsPow2(b) && IsPow2(c) && (b > 1 ==> Mul(cap, b) < 2 * n) && n <= Mul(cap, c)
    ensures b <= c
  {
    if c < b {
      Pow2Gap(c, b);
      MulMono(cap, 2 * c, cap, b);
      MulTwice(cap, c);
    }
  }

  lemma CoveredFits(h: Hasher, cap: nat, f: Forest, ds: seq<Bytes>)
    requires Tight(h, cap, f, ds)
    ensures |Flush(h, f)| <= cap && |ds| <= Mul(cap, f.perLeaf)
  {
    MulMono(|Flush(h, f)|, f.perLeaf, cap, f.perLeaf);
  }

  ghost predicate LeafIsRun(h: Hasher, f: Forest, ds: seq<Bytes>, i: nat)
    requires i < |Flush(h, f)|
  {
    var lo, hi := Mul(i, f.perLeaf), RunEnd(|ds|, f.perLeaf, i);
    lo < hi <= |ds| && Flush(h, f)[i] == Root(h, ds[lo..hi])
  }

  /** The retained leaves.  There are q of them with (q-1)*b < N <= q*b <= cap*b,
      that is ceil(N/b); b is the least power of two for which N <= cap*b, that is
      for which ceil(N/b) fits the capacity; and leaf i is the tree hash of the
      blocks from i*b up to the next multiple of b. */
  lemma RetainedLeaves(h: Hasher, cap: nat, ds: seq<Bytes>)
    requires cap >= 1 && |ds| >= 1 && Build(h, cap, ds).Some?
    ensures var f := Build(h, cap, ds).value;
            var q, b := |Flush(h, f)|, f.perLeaf;
            && IsPow2(b)
            && 1 <= q <= cap
            && (q - 1) * b < |ds| <= q * b
            && (forall c :: IsPow2(c) && |ds| <= Mul(cap, c) ==> b <= c)
            && (forall i :: 0 <= i < q ==> LeafIsRun(h, f, ds, i))
  {
    hide Build, Group, Root, Flush;
    var f := Build(h, cap, ds).value;
    var q, b := |Flush(h, f)|, f.perLeaf;
    BuildTight(h, cap, ds);
    CoveredFits(h, cap, f, ds);
    FlushIsGroup(h, f, ds);
    GroupLength(h, ds, b);
    MulIs(q, b);
    MulIs(q - 1, b);
    forall c | IsPow2(c) && |ds| <= Mul(cap, c) ensures b <= c {
      PerLeafLeast(cap, b, |ds|, c);
    }
    forall i | 0 <= i < q ensures LeafIsRun(h, f, ds, i) {
      GroupAt(h, ds, b, i);
    }
  }
}
