/** The tree hash that both tree digests of the library must compute.

    A stream is cut into blocks, every block is hashed behind a 0x00 octet, and
    the leaf digests are folded into one root by hashing pairs behind a 0x01
    octet.  The shape is the one of section 2 of the THEX specification: a list
    of more than one digest is split at the largest power of two below its
    length.  The inner hash stays a parameter `h`; nothing depends on it. */
module TreeHash {
  import opened Prelude
  import opened Octets
  import opened BlockStream

  type Hasher = Bytes -> Bytes

  function LeafHash(h: Hasher, data: Bytes): Bytes {
    h([0x00] + data)
  }

  function NodeHash(h: Hasher, a: Bytes, b: Bytes): Bytes {
    h([0x01] + a + b)
  }

  /** The blocks of a stream: all of length `size` but the last, which is shorter
      only when it has to be.  The empty stream is one empty block. */
  function Blocks(stream: Bytes, size: nat): (bs: seq<Bytes>)
    requires size >= 1
    ensures |bs| >= 1
    decreases |stream|
  {
    if |stream| <= size then [stream] else [stream[..size]] + Blocks(stream[size..], size)
  }

  lemma {:induction false} BlocksSplit(s: Bytes, n: nat)
    requires n >= 1
    ensures Blocks(s, n) == if Partial(s, n) == [] && |s| > 0 then Whole(s, n) else Whole(s, n) + [Partial(s, n)]
    ensures |s| > 0 && Partial(s, n) == [] ==> |Whole(s, n)| >= 1
    decreases |s|
  {
    if |s| == n {
      assert s[..n] == s;
      assert Whole(s[n..], n) == [];
    } else if |s| > n {
      BlocksSplit(s[n..], n);
    }
  }

  function Leaves(h: Hasher, blocks: seq<Bytes>): (ds: seq<Bytes>)
    ensures |ds| == |blocks|
  {
    seq(|blocks|, i requires 0 <= i < |blocks| => LeafHash(h, blocks[i]))
  }

  // ---- powers of two --------------------------------------------------------

  predicate IsPow2(n: nat) {
    n == 1 || (n >= 2 && n % 2 == 0 && IsPow2(n / 2))
  }

  /** The largest power of two below `n`. */
  function SplitPoint(n: nat): (k: nat)
    requires n >= 2
    ensures IsPow2(k) && k < n <= 2 * k
  {
    if n == 2 then 1 else 2 * SplitPoint((n + 1) / 2)
  }

  /** Two powers of two that are not ordered by a doubling are equal. */
  lemma {:induction false} Pow2Gap(a: nat, b: nat)
    requires IsPow2(a) && IsPow2(b) && a < b
    ensures 2 * a <= b
  {
    if a > 1 { Pow2Gap(a / 2, b / 2); }
  }

  lemma SplitPointUnique(n: nat, k: nat)
    requires n >= 2 && IsPow2(k) && k < n <= 2 * k
    ensures SplitPoint(n) == k
  {
    var s := SplitPoint(n);
    if s < k { Pow2Gap(s, k); }
    if k < s { Pow2Gap(k, s); }
  }

  // ---- the root -------------------------------------------------------------

  /** The root over a list of digests, by the recursive definition. */
  function Root(h: Hasher, ds: seq<Bytes>): Bytes
    requires |ds| >= 1
    decreases |ds|
  {
    if |ds| == 1 then ds[0]
    else
      var k := SplitPoint(|ds|);
      NodeHash(h, Root(h, ds[..k]), Root(h, ds[k..]))
  }

  /** The tree hash of a stream. */
  function TreeRoot(h: Hasher, size: nat, stream: Bytes): Bytes
    requires size >= 1
  {
    Root(h, Leaves(h, Blocks(stream, size)))
  }

  /** One level of the tree, bottom up: digests are hashed in pairs and a last
      unpaired one is promoted as it is. */
  function PairUp(h: Hasher, ds: seq<Bytes>): (r: seq<Bytes>)
    ensures |r| == (|ds| + 1) / 2
    decreases |ds|
  {
    if |ds| < 2 then ds else [NodeHash(h, ds[0], ds[1])] + PairUp(h, ds[2..])
  }

  lemma {:induction false} PairUpConcat(h: Hasher, a: seq<Bytes>, b: seq<Bytes>)
    requires |a| % 2 == 0
    ensures PairUp(h, a + b) == PairUp(h, a) + PairUp(h, b)
    decreases |a|
  {
    if a == [] {
      assert a + b == b;
    } else {
      var rest := a[2..];
      assert (a + b)[2..] == rest + b;
      PairUpConcat(h, rest, b);
      Assoc([NodeHash(h, a[0], a[1])], PairUp(h, rest), PairUp(h, b));
    }
  }

  /** Hashing one level bottom up does not change the root. */
  lemma {:induction false} PairUpRoot(h: Hasher, ds: seq<Bytes>)
    requires |ds| >= 1
    ensures Root(h, PairUp(h, ds)) == Root(h, ds)
    decreases |ds|
  {
    if |ds| == 2 {
      assert ds[..1] == [ds[0]] && ds[1..] == [ds[1]];
    } else if |ds| > 2 {
      var k := SplitPoint(|ds|);
      var p := PairUp(h, ds);
      assert k == 2 * SplitPoint(|p|);
      var a, b := ds[..k], ds[k..];
      assert ds == a + b;
      PairUpConcat(h, a, b);
      assert p[..k / 2] == PairUp(h, a) && p[k / 2..] == PairUp(h, b);
      PairUpRoot(h, a);
      PairUpRoot(h, b);
    }
  }

  // ---- digests grouped by a power of two -------------------------------------

  /** The roots of consecutive runs of `b` digests; the last run may be short. */
  function Group(h: Hasher, ds: seq<Bytes>, b: nat): seq<Bytes>
    requires b >= 1
    decreases |ds|
  {
    if ds == [] then []
    else if |ds| <= b then [Root(h, ds)]
    else [Root(h, ds[..b])] + Group(h, ds[b..], b)
  }

  lemma {:induction false} GroupOne(h: Hasher, ds: seq<Bytes>)
    ensures Group(h, ds, 1) == ds
    decreases |ds|
  {
    if |ds| > 1 { GroupOne(h, ds[1..]); }
  }

  lemma RootSplit(h: Hasher, ds: seq<Bytes>, b: nat)
    requires IsPow2(b) && b < |ds| <= 2 * b
    ensures Root(h, ds) == NodeHash(h, Root(h, ds[..b]), Root(h, ds[b..]))
  {
    SplitPointUnique(|ds|, b);
  }

  /** Pairing the runs of `b` digests gives the runs of `2 * b`. */
  lemma {:induction false} GroupDouble(h: Hasher, ds: seq<Bytes>, b: nat)
    requires IsPow2(b)
    ensures PairUp(h, Group(h, ds, b)) == Group(h, ds, 2 * b)
    decreases |ds|
  {
    hide Root;
    if |ds| > b {
      var first, rest := ds[..b], ds[b..];
      if |ds| <= 2 * b {
        RootSplit(h, ds, b);
        assert Group(h, ds, b) == [Root(h, first), Root(h, rest)];
      } else {
        var two, tail := ds[..2 * b], ds[2 * b..];
        RootSplit(h, two, b);
        assert two[..b] == first && two[b..] == rest[..b];
        assert rest[b..] == tail;
        var pair := [Root(h, first), Root(h, rest[..b])];
        assert Group(h, ds, b) == pair + Group(h, tail, b);
        GroupDouble(h, tail, b);
        PairUpConcat(h, pair, Group(h, tail, b));
      }
    }
  }

  lemma GroupRootDouble(h: Hasher, ds: seq<Bytes>, b: nat)
    requires IsPow2(b) && |ds| >= 1
    ensures |Group(h, ds, b)| >= 1 && |Group(h, ds, 2 * b)| >= 1
    ensures Root(h, Group(h, ds, 2 * b)) == Root(h, Group(h, ds, b))
  {
    GroupDouble(h, ds, b);
    PairUpRoot(h, Group(h, ds, b));
  }

  /** The root is the root of the run digests. */
  lemma {:induction false} GroupRoot(h: Hasher, ds: seq<Bytes>, b: nat)
    requires IsPow2(b) && |ds| >= 1
    ensures |Group(h, ds, b)| >= 1
    ensures Root(h, Group(h, ds, b)) == Root(h, ds)
    decreases b
  {
    if b == 1 {
      GroupOne(h, ds);
    } else {
      var c := b / 2;
      assert b == 2 * c;
      GroupRoot(h, ds, c);
      GroupRootDouble(h, ds, c);
    }
  }

  // ---- run arithmetic ---------------------------------------------------------

  /** `k * b` by repeated addition, which keeps the arithmetic of runs linear. */
  function Mul(k: nat, b: nat): nat {
    if k == 0 then 0 else Mul(k - 1, b) + b
  }

  lemma {:induction false} MulIs(k: nat, b: nat)
    ensures Mul(k, b) == k * b
  {
    if k > 0 {
      MulIs(k - 1, b);
      assert k * b == (k - 1) * b + b;
    }
  }

  lemma {:induction false} MulTwice(k: nat, b: nat)
    ensures Mul(k, 2 * b) == 2 * Mul(k, b) == Mul(2 * k, b)
  {
    if k > 0 {
      MulTwice(k - 1, b);
      assert Mul(2 * k, b) == Mul(2 * k - 1, b) + b == Mul(2 * k - 2, b) + b + b;
    }
  }

  lemma {:induction false} MulMono(k: nat, b: nat, l: nat, c: nat)
    requires k <= l && b <= c
    ensures Mul(k, b) <= Mul(l, c)
    decreases l
  {
    if k > 0 {
      MulMono(k - 1, b, l - 1, c);
    }
  }

  /** Where run `i` of `n` digests ends. */
  function RunEnd(n: nat, b: nat, i: nat): (e: nat) {
    if Mul(i + 1, b) <= n then Mul(i + 1, b) else n
  }

  /** A further run is appended at the end, provided what precedes it is whole. */
  lemma {:induction false} GroupAppend(h: Hasher, ds: seq<Bytes>, last: seq<Bytes>, b: nat, k: nat)
    requires 1 <= |last| <= b && |ds| == Mul(k, b)
    ensures Group(h, ds + last, b) == Group(h, ds, b) + [Root(h, last)]
    decreases k
  {
    if k == 0 {
      assert ds + last == last;
    } else {
      var all := ds + last;
      assert all[..b] == ds[..b] && all[b..] == ds[b..] + last;
      GroupAppend(h, ds[b..], last, b, k - 1);
      if |ds| == b { assert ds[..b] == ds; }
    }
  }

  /** There are just as many runs as it takes to cover the digests. */
  lemma {:induction false} GroupLength(h: Hasher, ds: seq<Bytes>, b: nat)
    requires b >= 1
    ensures var q := |Group(h, ds, b)|;
            |ds| <= Mul(q, b) && (q > 0 ==> Mul(q - 1, b) < |ds|)
    decreases |ds|
  {
    if ds == [] {
    } else if |ds| <= b {
      assert Mul(0, b) == 0 && Mul(1, b) == b;
    } else {
      GroupLength(h, ds[b..], b);
    }
  }

  lemma SliceShift<T>(s: seq<T>, b: nat, lo: nat, hi: nat)
    requires b + hi <= |s| && lo <= hi
    ensures s[b..][lo..hi] == s[lo + b..hi + b]
  {
  }

  /** Run `i` covers the digests from `i * b` up to the next multiple of `b`. */
  lemma {:induction false} GroupAt(h: Hasher, ds: seq<Bytes>, b: nat, i: nat)
    requires b >= 1 && i < |Group(h, ds, b)|
    ensures Mul(i, b) < RunEnd(|ds|, b, i) <= |ds|
    ensures Group(h, ds, b)[i] == Root(h, ds[Mul(i, b)..RunEnd(|ds|, b, i)])
    decreases i
  {
    hide Root;
    if i == 0 {
      assert Mul(1, b) == Mul(0, b) + b == b;
      assert |ds| <= b ==> ds[0..|ds|] == ds;
    } else {
      var tail := ds[b..];
      GroupAt(h, tail, b, i - 1);
      SliceShift(ds, b, Mul(i - 1, b), RunEnd(|tail|, b, i - 1));
    }
  }
}
