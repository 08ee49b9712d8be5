/** The mutable stack of digests and the mutable tree digest, proved against the
    value-level algorithm of MerkleForest. */
module MerkleDigest {
  import opened Prelude
  import opened Octets
  import opened BlockStream
  import opened TreeHash
  import opened MerkleForest

  /** A slot that may have been emptied by handing its digest over. */
  datatype Slot = Empty | Held(digest: Bytes)

  function Digests(s: seq<Slot>): (ds: seq<Bytes>)
    requires forall i :: 0 <= i < |s| ==> s[i].Held?
    ensures |ds| == |s|
  {
    seq(|s|, i requires 0 <= i < |s| => s[i].digest)
  }

  lemma {:induction false} PairUpAt(h: Hasher, ds: seq<Bytes>, k: nat)
    requires 2 * k + 1 < |ds|
    ensures PairUp(h, ds)[k] == NodeHash(h, ds[2 * k], ds[2 * k + 1])
    decreases k
  {
    if k > 0 { PairUpAt(h, ds[2..], k - 1); }
  }

  lemma PairUpSingle(h: Hasher, d: Bytes)
    ensures PairUp(h, [d]) == [d]
  {
  }

  /** The first `j` pairs have been combined into the first `j` slots, and the digests
      behind those pairs are where they were. */
  ghost predicate Repacked(slots: seq<Slot>, h: Hasher, ds: seq<Bytes>, j: nat)
    requires 2 * j <= |ds| <= |slots|
  {
    && (forall k :: 0 <= k < j ==> slots[k] == Held(PairUp(h, ds)[k]))
    && (forall k :: 2 * j <= k < |ds| ==> slots[k] == Held(ds[k]))
  }

  lemma RepackStep(slots: seq<Slot>, h: Hasher, ds: seq<Bytes>, j: nat)
    requires 2 * j + 2 <= |ds| <= |slots| && Repacked(slots, h, ds, j)
    ensures slots[2 * j] == Held(ds[2 * j]) && slots[2 * j + 1] == Held(ds[2 * j + 1])
    ensures var combined := NodeHash(h, ds[2 * j], ds[2 * j + 1]);
            Repacked(slots[2 * j := Empty][2 * j + 1 := Empty][j := Held(combined)], h, ds, j + 1)
  {
    hide PairUp, NodeHash;
    PairUpAt(h, ds, j);
  }

  class WorkStack {
    var slots: seq<Slot>
    var size: nat  // digests added since the stack was last cleared
    var pos: nat

    ghost predicate Valid()
      reads this
    {
      1 <= |slots| && pos <= |slots| && forall i :: 0 <= i < pos ==> slots[i].Held?
    }

    function Contents(): (ds: seq<Bytes>)
      requires Valid()
      reads this
    {
      Digests(slots[..pos])
    }

    constructor (capacity: nat)
      requires capacity >= 1
      ensures Valid() && Contents() == [] && size == 0 && |slots| == capacity
    {
      slots := seq(capacity, _ => Empty);
      size, pos := 0, 0;
    }

    method Clear()
      requires Valid()
      modifies this
      ensures Valid() && Contents() == [] && size == 0 && |slots| == old(|slots|)
    {
      slots := seq(|slots|, _ => Empty);
      size, pos := 0, 0;
    }

    /** Push; the slots are doubled when they are all in use. */
    method Add(d: Bytes)
      requires Valid()
      modifies this
      ensures Valid() && Contents() == old(Contents()) + [d] && size == old(size) + 1
      ensures |slots| == if old(pos) < old(|slots|) then old(|slots|) else 2 * old(|slots|)
    {
      if pos == |slots| {
        slots := slots + seq(|slots|, _ => Empty);
      }
      slots := slots[pos := Held(d)];
      pos, size := pos + 1, size + 1;
      assert slots[..pos] == old(slots)[..old(pos)] + [Held(d)];
    }

    /** Pop the last digest. */
    method ReleaseFirst() returns (d: Bytes)
      requires Valid() && pos > 0
      modifies this
      ensures Valid() && old(Contents()) == Contents() + [d] && size == old(size) && |slots| == old(|slots|)
    {
      d := slots[pos - 1].digest;
      slots := slots[pos - 1 := Empty];
      pos := pos - 1;
      assert old(slots)[..old(pos)] == slots[..pos] + [Held(d)];
    }

    /** Push every digest of another stack, first to last. */
    method AddAll(other: WorkStack)
      requires Valid() && other.Valid() && other != this
      modifies this
      ensures Valid() && Contents() == old(Contents()) + other.Contents()
    {
      for n := 0 to other.pos
        invariant Valid() && other.Valid()
        invariant Contents() == old(Contents()) + other.Contents()[..n]
      {
        Add(other.slots[n].digest);
      }
    }

    /** Hash the digests in pairs and repack them downwards, in place. */
    method Compact(h: Hasher)
      requires Valid() && pos % 2 == 0
      modifies this
      ensures Valid() && Contents() == PairUp(h, old(Contents())) && size == old(size) && |slots| == old(|slots|)
    {
      hide PairUp, NodeHash;
      ghost var ds := Contents();
      var i, j := 0, 0;
      while i < pos
        invariant i == 2 * j <= pos == |ds| <= |slots| == old(|slots|) && size == old(size)
        invariant Repacked(slots, h, ds, j)
      {
        RepackStep(slots, h, ds, j);
        var combined := NodeHash(h, slots[i].digest, slots[i + 1].digest);
        slots := slots[i := Empty][i + 1 := Empty][j := Held(combined)];
        i, j := i + 2, j + 1;
      }
      pos := j;
      slots := slots[..pos] + seq(|slots| - pos, _ => Empty);
    }

    /** One level, with an unpaired last digest set aside and put back. */
    method CompactLevel(h: Hasher)
      requires Valid() && pos > 1
      modifies this
      ensures Valid() && Contents() == PairUp(h, old(Contents())) && |slots| == old(|slots|)
    {
      hide PairUp;
      if pos % 2 == 1 {
        var spare := ReleaseFirst();
        ghost var front := Contents();
        Compact(h);
        Add(spare);
        PairUpConcat(h, front, [spare]);
        assert PairUp(h, [spare]) == [spare] by { PairUpSingle(h, spare); }
      } else {
        Compact(h);
      }
    }

    /** Level by level, down to one digest. */
    method CompactAll(h: Hasher)
      requires Valid()
      modifies this
      ensures Valid() && |slots| == old(|slots|)
      ensures Contents() == if old(Contents()) == [] then [] else [Root(h, old(Contents()))]
    {
      ghost var all := Contents();
      while pos > 1
        invariant Valid() && |slots| == old(|slots|) && (Contents() == [] <==> all == [])
        invariant all != [] ==> Root(h, Contents()) == Root(h, all)
        decreases pos
      {
        PairUpRoot(h, Contents());
        CompactLevel(h);
      }
    }
  }

  /** The leaves a digest of `stream` retains. */
  function Retained(h: Hasher, cap: nat, size: nat, stream: Bytes): Option<seq<Bytes>>
    requires size >= 1
  {
    match Build(h, cap, Leaves(h, Blocks(stream, size)))
    case None => None
    case Some(f) => Some(Flush(h, f))
  }

  /** One more block is one more leaf digest. */
  lemma BuildSnoc(h: Hasher, cap: nat, blocks: seq<Bytes>, last: Bytes)
    ensures Build(h, cap, Leaves(h, blocks + [last])) ==
            match Build(h, cap, Leaves(h, blocks))
            case None => None
            case Some(f) => AddLeaf(h, cap, f, LeafHash(h, last))
    ensures cap % 2 == 0 && Build(h, cap, Leaves(h, blocks)).Some? ==>
              Build(h, cap, Leaves(h, blocks + [last])).Some?
  {
    var ds := Leaves(h, blocks + [last]);
    assert ds[..|ds| - 1] == Leaves(h, blocks);
  }

  /** The blocks so far can be taken when those of a longer stream can. */
  lemma PrefixBuilds(h: Hasher, cap: nat, s: Bytes, t: Bytes, size: nat)
    requires size >= 1 && Build(h, cap, Leaves(h, Whole(s + t, size))).Some?
    ensures Build(h, cap, Leaves(h, Whole(s, size))).Some?
  {
    hide Build;
    var ds, n := Leaves(h, Whole(s + t, size)), |Whole(s, size)|;
    WholePrefix(s, t, size);
    BuildPrefix(h, cap, ds, n);
    assert ds[..n] == Leaves(h, Whole(s, size));
  }

  /** Closing a stream adds its last, possibly empty, block. */
  lemma ClosingIsBuild(h: Hasher, cap: nat, size: nat, stream: Bytes)
    requires size >= 1 && cap >= 1 && Build(h, cap, Leaves(h, Blocks(stream, size))).Some?
    ensures Build(h, cap, Leaves(h, Whole(stream, size))).Some?
    ensures var before := Build(h, cap, Leaves(h, Whole(stream, size))).value;
            var pending := Partial(stream, size);
            Build(h, cap, Leaves(h, Blocks(stream, size))) ==
            if pending != [] || Whole(stream, size) == [] then AddLeaf(h, cap, before, LeafHash(h, pending))
            else Some(before)
    ensures Retained(h, cap, size, stream).Some?
    ensures var leaves := Retained(h, cap, size, stream).value;
            leaves != [] && Root(h, leaves) == TreeRoot(h, size, stream)
  {
    BlocksSplit(stream, size);
    BuildSnoc(h, cap, Whole(stream, size), Partial(stream, size));
    assert stream == [] <==> Partial(stream, size) == [] && Whole(stream, size) == [];
    RootOfBuild(h, cap, Leaves(h, Blocks(stream, size)));
  }

  function Joined(ds: seq<Bytes>): Bytes {
    if ds == [] then [] else ds[0] + Joined(ds[1..])
  }

  lemma {:induction false} JoinedSnoc(ds: seq<Bytes>, d: Bytes)
    ensures Joined(ds + [d]) == Joined(ds) + d
  {
    if ds == [] {
      assert Joined([]) == [];
      assert ([d])[1..] == [];
    } else {
      assert (ds + [d])[1..] == ds[1..] + [d];
      JoinedSnoc(ds[1..], d);
      Assoc(ds[0], Joined(ds[1..]), d);
    }
  }

  /** Digests of one width can be told apart again after joining them. */
  lemma {:induction false} JoinedCut(ds: seq<Bytes>, width: nat)
    requires width >= 1 && forall d :: d in ds ==> |d| == width
    ensures Whole(Joined(ds), width) == ds && Partial(Joined(ds), width) == []
  {
    if ds != [] {
      var rest := Joined(ds[1..]);
      JoinedCut(ds[1..], width);
      assert (ds[0] + rest)[..width] == ds[0] && (ds[0] + rest)[width..] == rest;
    }
  }

  lemma WholeFirst(s: Bytes, n: nat)
    requires n >= 1 && Partial(s, n) == [] && s != []
    ensures |s| >= n && Partial(s[n..], n) == [] && Whole(s, n) == [s[..n]] + Whole(s[n..], n)
  {
  }

  lemma WholeNone(s: Bytes, n: nat)
    requires n >= 1 && s == []
    ensures Whole(s, n) == []
  {
  }

  /** The tree digest of a stream that arrives in pieces. */
  class MerkleTree {
    const h: Hasher
    const cap: nat
    const acc: Accumulator
    var nodes: WorkStack
    var work: WorkStack
    var blocksPerLeaf: nat
    var count: nat
    var finalized: bool
    var value: Bytes
    ghost var stream: Bytes  // everything taken in since construction or reset

    ghost predicate Valid()
      reads this, acc, acc.block, nodes, work
    {
      && acc.Valid() && nodes != work && nodes.Valid() && work.Valid()
      && 1 <= cap && 1 <= blocksPerLeaf
      && (!finalized ==> work.size == work.pos)
    }

    ghost function Model(): Forest
      requires Valid()
      reads this, acc, acc.block, nodes, work
    {
      Forest(nodes.Contents(), work.Contents(), blocksPerLeaf)
    }

    /** The digest has taken in `stream` and can take in more. */
    ghost predicate Streaming()
      reads this, acc, acc.block, nodes, work
    {
      && Valid() && !finalized
      && |nodes.slots| == cap
      && count == |Whole(stream, acc.size)|
      && acc.Pending() == Partial(stream, acc.size)
      && Build(h, cap, Leaves(h, Whole(stream, acc.size))) == Some(Model())
    }

    /** The digest of `stream` has been taken. */
    ghost predicate Finished()
      reads this, acc, acc.block, nodes, work
    {
      && Valid() && finalized
      && value == TreeRoot(h, acc.size, stream)
      && Some(nodes.Contents()) == Retained(h, cap, acc.size, stream)
    }

    constructor (h: Hasher, blockSize: nat, levels: nat)
      requires levels <= 64
      ensures this.h == h && cap == MaxLeaves(levels)
      ensures acc.size == if blockSize == 0 then 1024 else blockSize
      ensures Streaming() && stream == []
      ensures fresh(nodes) && fresh(work) && fresh(acc) && fresh(acc.block)
    {
      this.h := h;
      var leaves := CalcMaxLeaves(levels);
      cap := leaves;
      acc := new Accumulator(if blockSize == 0 then 1024 else blockSize);
      nodes := new WorkStack(leaves);
      work := new WorkStack(leaves);
      blocksPerLeaf, count, finalized, value, stream := 1, 0, false, [], [];
    }

    /** The waiting digests become one leaf. */
    method Promote()
      requires Valid() && !finalized && work.pos > 0
      modifies this, nodes, work
      ensures Valid() && !finalized && nodes == old(nodes) && work == old(work)
      ensures Model() == old(Forest(nodes.Contents() + [Root(h, work.Contents())], [], blocksPerLeaf))
      ensures |nodes.slots| == if old(nodes.pos) < old(|nodes.slots|) then old(|nodes.slots|) else 2 * old(|nodes.slots|)
      ensures count == old(count) && value == old(value) && stream == old(stream)
    {
      hide Root;
      work.CompactAll(h);
      var leaf := work.ReleaseFirst();
      nodes.Add(leaf);
      work.Clear();
    }

    /** Hash one block. */
    method HashBlock(data: Bytes)
      requires Valid() && !finalized && |nodes.slots| == cap
      requires AddLeaf(h, cap, Model(), LeafHash(h, data)).Some?
      modifies this, nodes, work
      ensures Valid() && !finalized && nodes == old(nodes) && work == old(work) && |nodes.slots| == cap
      ensures Some(Model()) == AddLeaf(h, cap, old(Model()), LeafHash(h, data))
      ensures count == old(count) + 1 && value == old(value) && stream == old(stream)
    {
      hide PairUp, Root;
      if nodes.pos == |nodes.slots| {
        nodes.Compact(h);
        blocksPerLeaf := blocksPerLeaf * 2;
      }
      work.Add(LeafHash(h, data));
      if work.size == blocksPerLeaf {
        Promote();
      }
      count := count + 1;
    }

    /** Take in more of the stream; a digest already taken ignores it.  The pairing
        assertion must not fail on the way. */
    method Update(data: Bytes)
      requires Finished() || (Streaming() && Build(h, cap, Leaves(h, Whole(stream + data, acc.size))).Some?)
      modifies this, acc, acc.block, nodes, work
      ensures nodes == old(nodes) && work == old(work)
      ensures old(finalized) ==> Finished() && stream == old(stream)
      ensures !old(finalized) ==> Streaming() && stream == old(stream) + data
    {
      hide Build, Leaves, Whole, Partial, TreeRoot, Retained;
      if finalized { return; }
      var offset := 0;
      while offset < |data|
        invariant offset <= |data| && nodes == old(nodes) && work == old(work)
        invariant Streaming() && stream == old(stream) + data[..offset]
        decreases |data| - offset
      {
        Assoc(old(stream), data[..offset], data[offset..]);
        assert data[..offset] + data[offset..] == data;
        offset := Absorb(data, offset);
      }
      assert data[..offset] == data;
    }

    /** One turn of the loop: fill the block, and hash it once it is full. */
    method Absorb(data: Bytes, offset: nat) returns (next: nat)
      requires Streaming() && offset < |data|
      requires Build(h, cap, Leaves(h, Whole(stream + data[offset..], acc.size))).Some?
      modifies this, acc, acc.block, nodes, work
      ensures offset < next <= |data|
      ensures Streaming() && stream == old(stream) + data[offset..next]
      ensures nodes == old(nodes) && work == old(work)
    {
      hide AddLeaf, Build, Leaves, Whole, Partial;
      var full;
      next, full := acc.Fill(data, offset);
      ghost var piece := data[offset..next];
      Extend(stream, piece, acc.size);
      Assoc(stream, piece, data[next..]);
      assert piece + data[next..] == data[offset..];
      PrefixBuilds(h, cap, stream + piece, data[next..], acc.size);
      if full {
        BuildSnoc(h, cap, Whole(stream, acc.size), acc.block[..]);
        HashBlock(acc.block[..]);
      }
      stream := stream + piece;
    }

    /** A pending or a very first block is still to be hashed. */
    ghost predicate Owing()
      reads this, acc
    {
      acc.index > 0 || count == 0
    }

    /** What the leaves will be made of when the digest is taken now. */
    ghost function Closing(): Option<Forest>
      requires Valid()
      reads this, acc, acc.block, nodes, work
    {
      if Owing() then AddLeaf(h, cap, Model(), LeafHash(h, acc.Pending())) else Some(Model())
    }

    /** Close the stream: promote what waits, and reduce a copy of the leaves to
        the root.  The leaves themselves are kept. */
    method Finalize()
      requires Valid()
      requires !finalized ==> Closing().Some? && Flush(h, Closing().value) != []
      requires !finalized && Owing() ==> |nodes.slots| == cap
      modifies this, nodes, work
      ensures Valid() && finalized && stream == old(stream)
      ensures old(finalized) ==> value == old(value) && nodes.Contents() == old(nodes.Contents())
      ensures !old(finalized) ==>
                && nodes.Contents() == old(Flush(h, Closing().value))
                && value == Root(h, nodes.Contents())
    {
      hide AddLeaf, Root;
      if finalized { return; }
      if acc.index > 0 || count == 0 {
        HashBlock(acc.Pending());
      }
      if work.size > 0 {
        Promote();
      }
      TakeRoot();
    }

    /** Reduce a copy of the leaves to the root. */
    method TakeRoot()
      requires Valid() && nodes.pos > 0 && work.Contents() == []
      modifies this, nodes, work
      ensures Valid() && finalized && nodes == old(nodes) && work == old(work) && stream == old(stream)
      ensures nodes.Contents() == old(nodes.Contents()) && value == old(Root(h, nodes.Contents()))
    {
      hide Root;
      work.AddAll(nodes);
      nodes.CompactAll(h);
      value := nodes.Contents()[nodes.pos - 1];
      nodes.Clear();
      nodes.AddAll(work);
      work.Clear();
      finalized := true;
    }

    /** The digest is the recursive tree hash of everything taken in, and asking
        again, or adding data in between, gives the same digest. */
    method Digest() returns (d: Bytes)
      requires Finished() || (Streaming() && Build(h, cap, Leaves(h, Blocks(stream, acc.size))).Some?)
      modifies this, nodes, work
      ensures Finished() && stream == old(stream)
      ensures d == TreeRoot(h, acc.size, stream)
    {
      if !finalized {
        ClosingIsBuild(h, cap, acc.size, stream);
      }
      Finalize();
      d := value;
    }

    /** Start over with the leaves of another digest: `leaves` is their
        concatenation, each `width` bytes long. */
    method SetLeavesLTR(leaves: Bytes, width: nat, fileSize: nat)
      requires Valid() && width >= 1 && Partial(leaves, width) == []
      modifies this, acc
      ensures Valid() && !finalized && fresh(nodes) && fresh(work)
      ensures Model() == Forest(Whole(leaves, width), [], 1)
      ensures acc.index == 0 && count == fileSize
    {
      hide Whole, Partial;
      nodes := new WorkStack(cap);
      work := new WorkStack(cap);
      blocksPerLeaf, acc.index, finalized := 1, 0, false;
      var n := 0;
      assert leaves[0..] == leaves;
      while n < |leaves|
        invariant n <= |leaves| && Valid() && !finalized && fresh(nodes) && fresh(work)
        invariant work.Contents() == [] && blocksPerLeaf == 1 && acc.index == 0
        invariant Partial(leaves[n..], width) == []
        invariant nodes.Contents() + Whole(leaves[n..], width) == Whole(leaves, width)
      {
        WholeFirst(leaves[n..], width);
        var leaf := leaves[n..n + width];
        assert leaves[n..][..width] == leaf && leaves[n..][width..] == leaves[n + width..];
        Assoc(nodes.Contents(), [leaf], Whole(leaves[n + width..], width));
        nodes.Add(leaf);
        n := n + width;
      }
      WholeNone(leaves[n..], width);
      count := fileSize;
    }

    /** The leaves one after the other. */
    method CopyLeavesLTR() returns (out: Bytes)
      requires Valid()
      ensures out == Joined(nodes.Contents())
    {
      out := [];
      for n := 0 to nodes.pos
        invariant out == Joined(nodes.Contents()[..n])
      {
        out := out + nodes.slots[n].digest;
        assert nodes.Contents()[..n + 1] == nodes.Contents()[..n] + [nodes.slots[n].digest];
        JoinedSnoc(nodes.Contents()[..n], nodes.slots[n].digest);
      }
      assert nodes.Contents()[..nodes.pos] == nodes.Contents();
    }
  }

  /** Leaves copied out of one digest and set in another give the same root.  The
      second digest needs to be told a nonzero size: with zero it would hash a
      first, empty, block of its own. */
  method TransferLeaves(source: MerkleTree, target: MerkleTree, width: nat, fileSize: nat) returns (d: Bytes)
    requires source.Finished() && target.Valid() && source != target && source.acc != target.acc
    requires source.h == target.h
    requires width >= 1 && fileSize > 0 && forall leaf :: leaf in source.nodes.Contents() ==> |leaf| == width
    modifies target, target.acc
    ensures d == TreeRoot(source.h, source.acc.size, source.stream)
    ensures target.Valid() && target.nodes.Contents() == old(source.nodes.Contents())
  {
    var copied := source.CopyLeavesLTR();
    ghost var leaves := source.nodes.Contents();
    JoinedCut(leaves, width);
    ClosingIsBuild(source.h, source.cap, source.acc.size, source.stream);
    target.SetLeavesLTR(copied, width, fileSize);
    target.Finalize();
    d := target.value;
  }
}
