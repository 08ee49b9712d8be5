/** The Bitzi tree hash, which keeps one digest per set bit of the block count and
    works like a binary counter: a new block is a new low bit, and two subtrees of
    one size carry into the next.

    The first part is about the stack as a value, the second is the context that
    is updated in place. */
module BitziTree {
  import opened Prelude
  import opened Octets
  import opened BlockStream
  import opened TreeHash
  import MerkleForest

  // ---- the stack as a value ---------------------------------------------------

  function PopCount(n: nat): nat {
    if n == 0 then 0 else n % 2 + PopCount(n / 2)
  }

  lemma PopCountHalf(n: nat)
    ensures n % 2 == 1 ==> PopCount(n) == PopCount(n - 1) + 1
    ensures n % 2 == 0 ==> PopCount(n) == PopCount(n / 2)
  {
    if n % 2 == 1 { assert (n - 1) / 2 == n / 2; }
  }

  lemma HalfCount(b: nat)
    requires b >= 2 && b % 2 == 0
    ensures PopCount(b - 1) == PopCount(b / 2 - 1) + 1
  {
    hide PopCount;
    PopCountHalf(b - 1);
    PopCountHalf(b - 2);
    assert (b - 2) / 2 == b / 2 - 1;
  }

  /** The largest power of two that is at most `n`. */
  function TopBit(n: nat): (k: nat)
    requires n >= 1
    ensures IsPow2(k) && k <= n < 2 * k
  {
    SplitPoint(n + 1)
  }

  /** The roots of the complete subtrees, largest first: one for every set bit. */
  function Stack(h: Hasher, ds: seq<Bytes>): seq<Bytes>
    decreases |ds|
  {
    if ds == [] then []
    else
      var k := TopBit(|ds|);
      [Root(h, ds[..k])] + Stack(h, ds[k..])
  }

  /** Merge the two topmost digests. */
  function MergeTop(h: Hasher, s: seq<Bytes>): (r: seq<Bytes>)
    requires |s| >= 2
    ensures |r| == |s| - 1
  {
    s[..|s| - 2] + [NodeHash(h, s[|s| - 2], s[|s| - 1])]
  }

  /** Merge subtrees of one size, as long as the count `b` is even. */
  function Carry(h: Hasher, s: seq<Bytes>, b: nat): seq<Bytes>
    requires b >= 1 && |s| == PopCount(b - 1) + 1
    decreases b
  {
    if b % 2 == 1 then s
    else
      HalfCount(b);
      Carry(h, MergeTop(h, s), b / 2)
  }

  /** Merge the whole stack from the right. */
  function Fold(h: Hasher, s: seq<Bytes>): Bytes
    requires |s| >= 1
    decreases |s|
  {
    if |s| == 1 then s[0] else NodeHash(h, s[0], Fold(h, s[1..]))
  }

  lemma TopBitOdd(n: nat)
    requires n % 2 == 1 && n > 1
    ensures TopBit(n - 1) == TopBit(n) && TopBit(n) % 2 == 0
  {
    SplitPointUnique(n, TopBit(n));
  }

  lemma {:induction false} StackOdd(h: Hasher, ds: seq<Bytes>)
    requires |ds| % 2 == 1
    ensures Stack(h, ds) == Stack(h, ds[..|ds| - 1]) + [ds[|ds| - 1]]
    decreases |ds|
  {
    hide Root, TopBit, IsPow2;
    var n := |ds|;
    var k := TopBit(n);
    if n == 1 {
      assert ds[..1] == ds && ds[..0] == [] && ds[1..] == [];
      RootSingle(h, ds);
    } else {
      var init, tail := ds[..n - 1], ds[k..];
      TopBitOdd(n);
      assert init[..k] == ds[..k];
      assert init[k..] == tail[..|tail| - 1];
      StackOdd(h, tail);
      Assoc([Root(h, ds[..k])], Stack(h, init[k..]), [ds[n - 1]]);
    }
  }

  lemma RootSingle(h: Hasher, ds: seq<Bytes>)
    requires |ds| == 1
    ensures Root(h, ds) == ds[0]
  {
  }

  lemma TopBitHalf(n: nat)
    requires n >= 2 && n % 2 == 0
    ensures TopBit(n) == 2 * TopBit(n / 2)
  {
    assert (n + 2) / 2 == n / 2 + 1;
  }

  lemma {:induction false} StackEven(h: Hasher, ds: seq<Bytes>)
    requires |ds| % 2 == 0
    ensures Stack(h, PairUp(h, ds)) == Stack(h, ds)
    decreases |ds|
  {
    hide Root, PairUp, TopBit, IsPow2;
    if ds == [] {
      assert PairUp(h, ds) == [];
    } else {
      var k := TopBit(|ds|);
      var a, b, p := ds[..k], ds[k..], PairUp(h, ds);
      TopBitHalf(|ds|);
      assert ds == a + b;
      PairUpConcat(h, a, b);
      assert p[..k / 2] == PairUp(h, a) && p[k / 2..] == PairUp(h, b);
      PairUpRoot(h, a);
      StackEven(h, b);
    }
  }

  lemma StackEmpty(h: Hasher)
    ensures Stack(h, []) == [] && PopCount(0) == 0
  {
  }

  /** A complete-subtree digest per set bit of the number of digests. */
  lemma {:induction false} StackSize(h: Hasher, ds: seq<Bytes>)
    ensures |Stack(h, ds)| == PopCount(|ds|)
    decreases |ds|
  {
    hide Stack, PairUp, PopCount;
    if ds == [] {
      StackEmpty(h);
    } else {
      var n := |ds|;
      PopCountHalf(n);
      if n % 2 == 1 {
        StackOdd(h, ds);
        StackSize(h, ds[..n - 1]);
      } else {
        StackEven(h, ds);
        StackSize(h, PairUp(h, ds));
      }
    }
  }

  lemma CarryStep(h: Hasher, s: seq<Bytes>, y: Bytes, x: Bytes, b: nat)
    requires b >= 1 && |s| == PopCount(b - 1)
    ensures PopCount(2 * b - 1) == |s| + 1
    ensures Carry(h, s + [y] + [x], 2 * b) == Carry(h, s + [NodeHash(h, y, x)], b)
  {
    HalfCount(2 * b);
    var t := s + [y] + [x];
    assert t[..|t| - 2] == s;
  }

  lemma StackTwo(h: Hasher, init: seq<Bytes>, y: Bytes, x: Bytes)
    requires |init| % 2 == 0
    ensures Stack(h, init + [y] + [x]) == Stack(h, PairUp(h, init) + [NodeHash(h, y, x)])
  {
    hide Stack, PairUp;
    var all := init + [y] + [x];
    StackEven(h, all);
    assert all == init + [y, x];
    PairUpConcat(h, init, [y, x]);
    PairUpPair(h, y, x);
  }

  lemma CarryOdd(h: Hasher, s: seq<Bytes>, b: nat)
    requires b >= 1 && |s| == PopCount(b - 1) + 1 && b % 2 == 1
    ensures Carry(h, s, b) == s
  {
  }

  /** One more block is one more push followed by the carries. */
  lemma {:induction false} StackSnoc(h: Hasher, ds: seq<Bytes>, x: Bytes)
    ensures |Stack(h, ds)| == PopCount(|ds|)
    ensures Stack(h, ds + [x]) == Carry(h, Stack(h, ds) + [x], |ds| + 1)
    decreases |ds|
  {
    hide Stack, PairUp, PopCount, Carry;
    StackSize(h, ds);
    var n := |ds|;
    if n % 2 == 0 {
      assert (ds + [x])[..n] == ds;
      StackOdd(h, ds + [x]);
      CarryOdd(h, Stack(h, ds) + [x], n + 1);
    } else {
      var init, y := ds[..n - 1], ds[n - 1];
      var p := PairUp(h, init);
      assert ds == init + [y];
      StackOdd(h, ds);
      StackEven(h, init);
      StackTwo(h, init, y, x);
      StackSnoc(h, p, NodeHash(h, y, x));
      assert n + 1 == 2 * (|p| + 1);
      CarryStep(h, Stack(h, init), y, x, |p| + 1);
    }
  }

  lemma PairUpPair(h: Hasher, y: Bytes, x: Bytes)
    ensures PairUp(h, [y, x]) == [NodeHash(h, y, x)]
  {
    assert [y, x][2..] == [];
  }

  /** Folding the stack gives the root of the recursive definition. */
  lemma {:induction false} FoldStack(h: Hasher, ds: seq<Bytes>)
    requires |ds| >= 1
    ensures |Stack(h, ds)| >= 1 && Fold(h, Stack(h, ds)) == Root(h, ds)
    decreases |ds|
  {
    var k := TopBit(|ds|);
    if k == |ds| {
      assert ds[..k] == ds && ds[k..] == [];
      assert Stack(h, ds) == [Root(h, ds)];
    } else {
      SplitPointUnique(|ds|, k);
      FoldStack(h, ds[k..]);
    }
  }

  /** The binary counter and the compacting leaf list compute one root. */
  lemma AgreesWithMerkleForest(h: Hasher, cap: nat, ds: seq<Bytes>)
    requires |ds| >= 1 && cap >= 2 && cap % 2 == 0
    ensures |Stack(h, ds)| >= 1
    ensures var f := MerkleForest.Build(h, cap, ds);
            && f.Some?
            && MerkleForest.Flush(h, f.value) != []
            && Fold(h, Stack(h, ds)) == Root(h, MerkleForest.Flush(h, f.value))
  {
    FoldStack(h, ds);
    MerkleForest.BuildEven(h, cap, ds);
    MerkleForest.RootOfBuild(h, cap, ds);
  }

  lemma {:induction false} FoldMerge(h: Hasher, s: seq<Bytes>)
    requires |s| >= 2
    ensures Fold(h, MergeTop(h, s)) == Fold(h, s)
    decreases |s|
  {
    if |s| > 2 {
      FoldMerge(h, s[1..]);
      assert MergeTop(h, s)[1..] == MergeTop(h, s[1..]);
    }
  }

  // ---- how deep the stack gets ------------------------------------------------

  const SLOTS: nat := 56
  const BLOCKSIZE: nat := 1024

  function Pow2(k: nat): (p: nat)
    ensures p >= 1
  {
    if k == 0 then 1 else 2 * Pow2(k - 1)
  }

  lemma {:induction false} PopCountBelow(n: nat, k: nat)
    requires n < Pow2(k)
    ensures PopCount(n) <= k && (PopCount(n) == k <==> n == Pow2(k) - 1)
  {
    if n == 0 {
      if k > 0 { assert Pow2(k) >= 2; }
    } else {
      PopCountBelow(n / 2, k - 1);
    }
  }

  /** Taking in a block after `count` others stays inside `slots` slots: the push,
      and the scratch slot above the top when two subtrees are merged. */
  predicate BlockFits(count: nat, slots: nat) {
    PopCount(count) < slots && (count % 2 == 1 ==> PopCount(count) + 1 < slots)
  }

  /** With k + 1 slots, exactly the streams of fewer than 2^k blocks fit; the 56
      slots of the context are good for fewer than 2^55 blocks. */
  lemma SlotsSuffice(k: nat, slots: nat, n: nat)
    requires k >= 1 && slots == k + 1
    ensures (forall c: nat :: c < n ==> BlockFits(c, slots)) <==> n < Pow2(k)
  {
    hide PopCount;
    var worst := Pow2(k) - 1;
    PopCountBelow(worst, k);
    assert worst == 2 * (Pow2(k - 1) - 1) + 1;
    assert !BlockFits(worst, slots);
    forall c: nat | c < n && n < Pow2(k) ensures BlockFits(c, slots) {
      PopCountBelow(c, k);
    }
  }

  lemma {:induction false} BlocksWithin(s: Bytes, k: nat)
    requires |s| <= k * BLOCKSIZE
    ensures |Blocks(s, BLOCKSIZE)| <= k + 1
    decreases |s|
  {
    if |s| > BLOCKSIZE { BlocksWithin(s[BLOCKSIZE..], k - 1); }
  }

  lemma {:induction false} Pow2Sum(a: nat, b: nat)
    ensures Pow2(a + b) == Pow2(a) * Pow2(b)
    decreases a
  {
    if a > 0 {
      Pow2Sum(a - 1, b);
      assert Pow2(a + b) == 2 * (Pow2(a - 1) * Pow2(b));
    }
  }

  lemma PowersAre()
    ensures Pow2(54) == 0x40_0000_0000_0000 && Pow2(55) == 2 * Pow2(54)
  {
    assert Pow2(9) == 512;
    Pow2Sum(9, 9);
    Pow2Sum(18, 18);
    Pow2Sum(18, 36);
  }

  /** Every stream whose length a 64-bit counter can hold fits the 56 slots. */
  lemma StreamFits(s: Bytes, c: nat)
    requires |s| < 0x1_0000_0000_0000_0000 && c < |Blocks(s, BLOCKSIZE)|
    ensures BlockFits(c, SLOTS) && |Blocks(s, BLOCKSIZE)| < Pow2(55)
  {
    hide Blocks, Pow2, BlockFits;
    PowersAre();
    BlocksWithin(s, 0x40_0000_0000_0000);
    SlotsSuffice(55, SLOTS, |Blocks(s, BLOCKSIZE)|);
  }

  lemma CarryOnce(h: Hasher, s: seq<Bytes>, b: nat)
    requires b >= 1 && b % 2 == 0 && |s| == PopCount(b - 1) + 1
    ensures |s| >= 2 && |s| - 1 == PopCount(b / 2 - 1) + 1
    ensures Carry(h, s, b) == Carry(h, MergeTop(h, s), b / 2)
  {
    HalfCount(b);
  }

  lemma PopZero(n: nat)
    ensures PopCount(n) == 0 <==> n == 0
  {
    if n > 0 && n % 2 == 0 { PopZero(n / 2); }
  }

  lemma FoldSingle(h: Hasher, s: seq<Bytes>)
    requires |s| == 1
    ensures Fold(h, s) == s[0]
  {
  }

  class Context {
    const h: Hasher
    const block: array<Byte>
    const nodes: array<Bytes>
    var index: nat
    var top: nat
    var count: nat
    ghost var stream: Bytes

    ghost predicate Valid()
      reads this
    {
      block.Length == BLOCKSIZE && nodes.Length == SLOTS && index <= BLOCKSIZE && top <= SLOTS
    }

    /** The stack is the counter over these block digests. */
    ghost predicate Counts(ds: seq<Bytes>)
      reads this, nodes
    {
      Valid() && count == |ds| && nodes[..top] == Stack(h, ds)
    }

    /** Exactly `stream` has been taken in. */
    ghost predicate Streaming()
      reads this, block, nodes
    {
      && Counts(Leaves(h, Whole(stream, BLOCKSIZE)))
      && index < BLOCKSIZE
      && block[..index] == Partial(stream, BLOCKSIZE)
    }

    constructor (h: Hasher)
      ensures this.h == h && Streaming() && stream == [] && fresh(block) && fresh(nodes)
    {
      this.h := h;
      block := new Byte[BLOCKSIZE](_ => 0);
      nodes := new Bytes[SLOTS](_ => []);
      index, top, count, stream := 0, 0, 0, [];
    }

    /** Merge the two topmost digests, by way of the slot above them. */
    method Compose()
      requires Valid() && 2 <= top < SLOTS
      modifies this`top, nodes
      ensures Valid() && top == old(top) - 1
      ensures nodes[..top] == old(MergeTop(h, nodes[..top]))
    {
      nodes[top] := NodeHash(h, nodes[top - 2], nodes[top - 1]);
      nodes[top - 2] := nodes[top];
      top := top - 1;
    }

    /** Hash the block gathered so far, and carry. */
    method TakeBlock(ghost ds: seq<Bytes>)
      requires Counts(ds) && count + 1 < Pow2(55)
      modifies this`top, this`count, nodes
      ensures Counts(ds + [LeafHash(h, block[..index])])
    {
      hide Stack, Carry, PopCount, Pow2, LeafHash;
      ghost var x := LeafHash(h, block[..index]);
      StackSnoc(h, ds, x);
      PopCountBelow(count, 55);
      nodes[top] := LeafHash(h, block[..index]);
      top := top + 1;
      count := count + 1;
      var b := count;
      assert nodes[..top] == Stack(h, ds) + [x];
      while b % 2 == 0
        invariant Valid() && 1 <= b && top == PopCount(b - 1) + 1 <= 55
        invariant Carry(h, nodes[..top], b) == Stack(h, ds + [x])
        invariant block[..index] == old(block[..index])
        modifies this`top, nodes
        decreases b
      {
        CarryOnce(h, nodes[..top], b);
        Compose();
        b := b / 2;
      }
      CarryOdd(h, nodes[..top], b);
    }

    /** One call with the next piece of the stream: complete the pending block,
        take whole blocks, keep what is left. */
    method Update(data: Bytes)
      requires Streaming() && |Whole(stream + data, BLOCKSIZE)| < Pow2(55)
      modifies this, block, nodes
      ensures Streaming() && stream == old(stream) + data
    {
      hide Stack, Pow2;
      var offset := 0;
      if index > 0 {
        var left := BLOCKSIZE - index;
        if |data| < left {
          assert data[0..|data|] == data;
          Gather(data, 0, |data|);
          return;
        }
        WholePrefix(stream + data[..left], data[left..], BLOCKSIZE);
        assert (stream + data[..left]) + data[left..] == stream + data;
        Gather(data, 0, left);
        offset := left;
      }
      while |data| - offset >= BLOCKSIZE
        invariant offset <= |data| && Streaming() && index == 0
        invariant stream == old(stream) + data[..offset]
        decreases |data| - offset
      {
        var next := offset + BLOCKSIZE;
        assert old(stream) + data[..next] == stream + data[offset..next];
        assert (old(stream) + data[..next]) + data[next..] == old(stream) + data;
        WholePrefix(old(stream) + data[..next], data[next..], BLOCKSIZE);
        Gather(data, offset, next);
        offset := next;
      }
      assert old(stream) + data == stream + data[offset..|data|];
      Gather(data, offset, |data|);
    }

    /** Copy a piece behind the pending bytes; a block completed by it is hashed. */
    method Gather(data: Bytes, lo: nat, hi: nat)
      requires Streaming() && lo <= hi <= |data| && index + hi - lo <= BLOCKSIZE
      requires |Whole(stream + data[lo..hi], BLOCKSIZE)| < Pow2(55)
      modifies this, block, nodes
      ensures Streaming() && stream == old(stream) + data[lo..hi]
      ensures index == if old(index) + hi - lo == BLOCKSIZE then 0 else old(index) + hi - lo
    {
      hide Stack, Pow2, Whole, Partial;
      ghost var piece := data[lo..hi];
      ghost var pending, whole := block[..index], Whole(stream, BLOCKSIZE);
      Extend(stream, piece, BLOCKSIZE);
      forall k | 0 <= k < hi - lo { block[index + k] := data[lo + k]; }
      index := index + (hi - lo);
      assert block[..index] == pending + piece;
      if index == BLOCKSIZE {
        TakeBlock(Leaves(h, whole));
        assert Leaves(h, whole + [pending + piece]) == Leaves(h, whole) + [LeafHash(h, pending + piece)];
        index := 0;
      }
      stream := stream + piece;
    }

    /** The digest is the recursive tree hash of the stream. */
    method Digest() returns (d: Bytes)
      requires Streaming() && |Blocks(stream, BLOCKSIZE)| < Pow2(55)
      modifies this, nodes
      ensures d == TreeRoot(h, BLOCKSIZE, stream)
    {
      hide Stack, Pow2, PopCount, Fold;
      ghost var whole, pending := Whole(stream, BLOCKSIZE), Partial(stream, BLOCKSIZE);
      ghost var ds := Leaves(h, Blocks(stream, BLOCKSIZE));
      BlocksSplit(stream, BLOCKSIZE);
      StackSize(h, Leaves(h, whole));
      PopZero(count);
      if index > 0 || top == 0 {
        TakeBlock(Leaves(h, whole));
        assert Leaves(h, whole + [pending]) == Leaves(h, whole) + [LeafHash(h, pending)];
      }
      assert Counts(ds);
      FoldStack(h, ds);
      StackSize(h, ds);
      PopCountBelow(count, 55);
      while top > 1
        invariant Valid() && 1 <= top <= 55 && Fold(h, nodes[..top]) == Root(h, ds)
        modifies this`top, nodes
        decreases top
      {
        FoldMerge(h, nodes[..top]);
        Compose();
      }
      FoldSingle(h, nodes[..top]);
      d := nodes[0];
    }
  }
}
