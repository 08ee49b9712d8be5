/** The padding digest under the tree: bytes are gathered into 64-byte blocks, and
    taking the digest appends a marker, zeros and the bit length.  The compression
    function is a parameter. */
module TigerDigest {
  import opened Prelude
  import opened Octets
  import opened BlockStream

  const BLOCK: nat := 64
  const WORD: nat := 0x1_0000_0000_0000_0000  // 2^64

  // ---- the padding as a function of the message -----------------------------------

  function Zeros(n: nat): (z: Bytes)
    ensures |z| == n
  {
    seq(n, _ => 0)
  }

  /** The low `n` octets of `v`, least significant first. */
  function LittleEndian(v: nat, n: nat): (r: Bytes)
    ensures |r| == n
  {
    if n == 0 then [] else [(v % 256) as Byte] + LittleEndian(v / 256, n - 1)
  }

  function ZeroCount(length: nat): (z: nat)
    ensures z < BLOCK && (length + 1 + z + 8) % BLOCK == 0
  {
    (119 - length % 64) % 64
  }

  /** The bit length wraps around at 64 bits. */
  function BitLength(length: nat): nat {
    8 * length % WORD
  }

  function PadTail(length: nat): Bytes {
    [0x01] + Zeros(ZeroCount(length)) + LittleEndian(BitLength(length), 8)
  }

  function Padded(m: Bytes): Bytes {
    m + PadTail(|m|)
  }

  lemma ZerosLeast(n: nat, z: nat, y: nat)
    requires z < BLOCK && (n + 1 + z + 8) % BLOCK == 0
    ensures (n + 1 + y + 8) % BLOCK == 0 ==> z <= y
  {
    var a, b := (n + 1 + z + 8) / 64, (n + 1 + y + 8) / 64;
    assert n + 9 + z == 64 * a;
  }

  /** The padding completes the last block, with as few zeros as that takes. */
  lemma PaddingIsLeast(m: Bytes, zeros: nat)
    ensures |Padded(m)| % BLOCK == 0
    ensures (|m| + 1 + zeros + 8) % BLOCK == 0 ==> |Padded(m)| <= |m| + 1 + zeros + 8
  {
    hide ZeroCount;
    ZerosLeast(|m|, ZeroCount(|m|), zeros);
  }

  lemma {:induction false} LittleEndianInjective(v: nat, w: nat, n: nat)
    requires LittleEndian(v, n) == LittleEndian(w, n)
    requires v < Pow256(n) && w < Pow256(n)
    ensures v == w
  {
    if n > 0 {
      var a, b := LittleEndian(v, n), LittleEndian(w, n);
      assert v % 256 == w % 256 by { assert a[0] == b[0]; }
      assert a[1..] == LittleEndian(v / 256, n - 1) && b[1..] == LittleEndian(w / 256, n - 1);
      LittleEndianInjective(v / 256, w / 256, n - 1);
    }
  }

  function Pow256(n: nat): nat {
    if n == 0 then 1 else 256 * Pow256(n - 1)
  }

  lemma WordIsEightOctets()
    ensures Pow256(8) == WORD
  {
    assert Pow256(4) == 0x1_0000_0000;
  }

  lemma PaddedParts(m: Bytes)
    ensures |Padded(m)| >= |m| + 8 && Padded(m)[..|m|] == m
    ensures Padded(m)[|Padded(m)| - 8..] == LittleEndian(BitLength(|m|), 8)
  {
    hide LittleEndian, BitLength, ZeroCount;
    var len := LittleEndian(BitLength(|m|), 8);
    var front := m + ([0x01] + Zeros(ZeroCount(|m|)));
    assert Padded(m) == front + len;
  }

  lemma PaddedLength(m: Bytes)
    ensures |m| + 9 <= |Padded(m)| < |m| + 9 + BLOCK
  {
    hide ZeroCount, LittleEndian;
  }

  /** Lengths less than a block apart with the same field are the same, wrapped or not. */
  lemma FieldTellsApart(a: nat, b: nat)
    requires a - b < BLOCK && b - a < BLOCK && BitLength(a) == BitLength(b)
    ensures a == b
  {
    var p, q := 8 * a / WORD, 8 * b / WORD;
    assert 8 * a == p * WORD + BitLength(a) && 8 * b == q * WORD + BitLength(b);
    assert 8 * (a - b) == (p - q) * WORD;
  }

  /** Different messages are padded differently, even where the length field has wrapped. */
  lemma PaddingInjective(m: Bytes, n: Bytes)
    requires Padded(m) == Padded(n)
    ensures m == n
  {
    hide Padded, LittleEndian, Pow256, BitLength;
    PaddedParts(m);
    PaddedParts(n);
    PaddedLength(m);
    PaddedLength(n);
    WordIsEightOctets();
    FieldBelowWord(|m|);
    FieldBelowWord(|n|);
    LittleEndianInjective(BitLength(|m|), BitLength(|n|), 8);
    FieldTellsApart(|m|, |n|);
  }

  lemma FieldBelowWord(length: nat)
    ensures BitLength(length) < WORD
  {
  }

  /** At 2^61 bytes the length field has wrapped back to zero. */
  lemma LengthWraps(m: Bytes)
    ensures BitLength(|m|) == 8 * |m| <==> |m| < WORD / 8
  {
  }

  // ---- compressing the blocks ------------------------------------------------------

  function Compressed<S>(compress: (S, Bytes) -> S, state: S, blocks: seq<Bytes>): S {
    if blocks == [] then state
    else compress(Compressed(compress, state, blocks[..|blocks| - 1]), blocks[|blocks| - 1])
  }

  lemma CompressedSnoc<S>(compress: (S, Bytes) -> S, state: S, blocks: seq<Bytes>, b: Bytes)
    ensures Compressed(compress, state, blocks + [b]) == compress(Compressed(compress, state, blocks), b)
  {
    assert (blocks + [b])[..|blocks|] == blocks;
  }

  lemma {:induction false} WholeTail(s: Bytes, t: Bytes)
    ensures Whole(s + t, BLOCK) == Whole(s, BLOCK) + Whole(Partial(s, BLOCK) + t, BLOCK)
    ensures |s| % BLOCK == |Partial(s, BLOCK)|
    decreases |s|
  {
    if |s| >= BLOCK {
      var u, w := s + t, s[BLOCK..];
      assert u[..BLOCK] == s[..BLOCK];
      assert u[BLOCK..] == w + t;
      WholeTail(w, t);
      Assoc([s[..BLOCK]], Whole(w, BLOCK), Whole(Partial(w, BLOCK) + t, BLOCK));
    }
  }

  lemma WholeOne(s: Bytes)
    requires |s| == BLOCK
    ensures Whole(s, BLOCK) == [s]
  {
    assert s[..BLOCK] == s && s[BLOCK..] == [];
    assert Whole(s[BLOCK..], BLOCK) == [];
  }

  lemma WholeTwo(a: Bytes, b: Bytes)
    requires |a| == BLOCK && |b| == BLOCK
    ensures Whole(a + b, BLOCK) == [a, b]
  {
    var s := a + b;
    assert s[..BLOCK] == a && s[BLOCK..] == b;
    WholeOne(b);
  }

  /** The pending bytes with the marker behind them, filled up with zeros. */
  function Marked(p: Bytes): (b: Bytes)
    requires |p| < BLOCK
    ensures |b| == BLOCK
  {
    p + [0x01] + Zeros(BLOCK - 1 - |p|)
  }

  lemma TailInOne(p: Bytes, len: Bytes)
    requires |p| < BLOCK - 8 && |len| == 8
    ensures p + ([0x01] + Zeros(55 - |p|) + len) == Marked(p)[..BLOCK - 8] + len
  {
    assert Marked(p)[..BLOCK - 8] == p + [0x01] + Zeros(55 - |p|);
    assert p + ([0x01] + Zeros(55 - |p|) + len) == (p + [0x01] + Zeros(55 - |p|)) + len;
  }

  lemma TailInTwo(p: Bytes, len: Bytes)
    requires BLOCK - 8 <= |p| < BLOCK && |len| == 8
    ensures p + ([0x01] + Zeros(119 - |p|) + len) == Marked(p) + (Zeros(BLOCK - 8) + len)
  {
    assert Zeros(119 - |p|) == Zeros(63 - |p|) + Zeros(56);
    assert p + ([0x01] + (Zeros(63 - |p|) + Zeros(56)) + len)
        == (p + [0x01] + Zeros(63 - |p|)) + (Zeros(56) + len);
  }

  /** The blocks behind the message: one when the pending bytes leave room for the
      marker and the length, otherwise two. */
  lemma PaddedBlocks(m: Bytes)
    ensures var p, len := Partial(m, BLOCK), LittleEndian(BitLength(|m|), 8);
            Whole(Padded(m), BLOCK) == Whole(m, BLOCK) +
              if |p| < BLOCK - 8 then [Marked(p)[..BLOCK - 8] + len]
              else [Marked(p), Zeros(BLOCK - 8) + len]
  {
    hide Whole, Partial, LittleEndian, BitLength, Marked;
    var p, len := Partial(m, BLOCK), LittleEndian(BitLength(|m|), 8);
    WholeTail(m, PadTail(|m|));
    if |p| < BLOCK - 8 {
      assert ZeroCount(|m|) == 55 - |p|;
      TailInOne(p, len);
      WholeOne(Marked(p)[..BLOCK - 8] + len);
    } else {
      assert ZeroCount(|m|) == 119 - |p|;
      TailInTwo(p, len);
      WholeTwo(Marked(p), Zeros(BLOCK - 8) + len);
    }
  }

  // ---- the digest, updated in place ---------------------------------------------------

  /** `v` shifted right by `k` octets. */
  function Shifted(v: nat, k: nat): nat {
    if k == 0 then v else Shifted(v / 256, k - 1)
  }

  lemma {:induction false} LittleEndianAt(v: nat, n: nat, j: nat)
    requires j < n
    ensures LittleEndian(v, n)[j] == (Shifted(v, j) % 256) as Byte
  {
    if j > 0 { LittleEndianAt(v / 256, n - 1, j - 1); }
  }

  class Tiger<S> {
    const compress: (S, Bytes) -> S
    const initial: S
    const extract: S -> Bytes
    const acc: Accumulator
    var state: S
    var fileSize: nat  // 64 bits
    var finalized: bool
    var value: Bytes
    ghost var stream: Bytes

    /** The whole blocks of `s` have been compressed, and its rest is waiting. */
    ghost predicate Absorbed(s: Bytes)
      reads this, acc, acc.block
    {
      && acc.Valid() && acc.size == BLOCK
      && acc.Pending() == Partial(s, BLOCK) && state == Compressed(compress, initial, Whole(s, BLOCK))
    }

    ghost predicate Streaming()
      reads this, acc, acc.block
    {
      Absorbed(stream) && !finalized && fileSize == |stream| % WORD
    }

    /** The digest of `stream` has been taken: exactly the blocks of the padded
        message were compressed. */
    ghost predicate Finished()
      reads this, acc, acc.block
    {
      && acc.Valid() && finalized
      && state == Compressed(compress, initial, Whole(Padded(stream), BLOCK))
      && value == extract(state)
    }

    constructor (compress: (S, Bytes) -> S, initial: S, extract: S -> Bytes)
      ensures this.compress == compress && this.initial == initial && this.extract == extract
      ensures Streaming() && stream == [] && fresh(acc) && fresh(acc.block)
    {
      this.compress, this.initial, this.extract := compress, initial, extract;
      acc := new Accumulator(BLOCK);
      state, fileSize, finalized, value, stream := initial, 0, false, [], [];
    }

    /** Whatever the pieces are, the state depends on their concatenation only; once
        the digest has been taken nothing changes any more. */
    method Update(data: Bytes)
      requires Streaming() || Finished()
      modifies this, acc, acc.block
      ensures old(finalized) ==> Finished() && stream == old(stream) && value == old(value)
      ensures !old(finalized) ==> Streaming() && stream == old(stream) + data
    {
      hide Compressed, Whole, Partial, Padded;
      if data == [] || finalized {
        assert data == [] ==> stream + data == stream;
        return;
      }
      var offset := 0;
      assert stream + data[..0] == stream;
      while offset < |data|
        invariant offset <= |data| && !finalized && fileSize == old(fileSize) && stream == old(stream)
        invariant Absorbed(stream + data[..offset])
        decreases |data| - offset
      {
        ghost var before := offset;
        offset := Take(data, offset, stream + data[..offset]);
        assert data[..before] + data[before..offset] == data[..offset];
        Assoc(stream, data[..before], data[before..offset]);
      }
      assert data[..|data|] == data;
      fileSize := (fileSize + |data|) % WORD;
      stream := stream + data;
    }

    /** One turn of the loop. */
    method Take(data: Bytes, offset: nat, ghost before: Bytes) returns (next: nat)
      requires Absorbed(before) && offset < |data|
      modifies this`state, acc, acc.block
      ensures offset < next <= |data| && Absorbed(before + data[offset..next])
    {
      hide Compressed, Whole, Partial;
      var full;
      next, full := acc.Fill(data, offset);
      Extend(before, data[offset..next], BLOCK);
      if full {
        CompressedSnoc(compress, initial, Whole(before, BLOCK), acc.block[..]);
        state := compress(state, acc.block[..]);
      }
    }

    /** Write the bit length into the last eight octets of the block. */
    method FinalizeCount()
      requires acc.block.Length == BLOCK
      modifies acc.block
      ensures acc.block[..] == old(acc.block[..])[..BLOCK - 8] + LittleEndian(8 * fileSize % WORD, 8)
    {
      var bits := 8 * fileSize % WORD;
      var j := 0;
      while j < 8
        invariant j <= 8
        invariant acc.block[..BLOCK - 8] == old(acc.block[..])[..BLOCK - 8]
        invariant forall i :: 0 <= i < j ==> acc.block[BLOCK - 8 + i] == LittleEndian(bits, 8)[i]
      {
        LittleEndianAt(bits, 8, j);
        acc.block[BLOCK - 8 + j] := (Shifted(bits, j) % 256) as Byte;
        j := j + 1;
      }
      assert acc.block[BLOCK - 8..] == LittleEndian(bits, 8);
      assert acc.block[..] == acc.block[..BLOCK - 8] + acc.block[BLOCK - 8..];
    }

    method Finalize()
      requires Streaming()
      modifies this`state, acc.block
      ensures state == Compressed(compress, initial, Whole(Padded(stream), BLOCK))
    {
      hide Compressed, Whole, Partial, Padded, LittleEndian;
      ghost var p, len, whole := acc.Pending(), LittleEndian(BitLength(|stream|), 8), Whole(stream, BLOCK);
      PaddedBlocks(stream);
      BitLengthWrapped(|stream|);
      acc.block[acc.index] := 0x01;
      forall j | acc.index < j < BLOCK { acc.block[j] := 0; }
      assert acc.block[..] == Marked(p);
      if acc.index >= BLOCK - 8 {
        CompressedSnoc(compress, initial, whole, acc.block[..]);
        state := compress(state, acc.block[..]);
        forall j | 0 <= j < BLOCK { acc.block[j] := 0; }
        assert acc.block[..][..BLOCK - 8] == Zeros(BLOCK - 8);
        FinalizeCount();
        CompressedSnoc(compress, initial, whole + [Marked(p)], acc.block[..]);
        assert whole + [Marked(p)] + [acc.block[..]] == whole + [Marked(p), acc.block[..]];
      } else {
        FinalizeCount();
        CompressedSnoc(compress, initial, whole, acc.block[..]);
      }
      state := compress(state, acc.block[..]);
    }

    /** Asking again changes nothing. */
    method Digest() returns (d: Bytes)
      requires Streaming() || Finished()
      modifies this, acc.block
      ensures Finished() && stream == old(stream) && d == value
      ensures d == extract(Compressed(compress, initial, Whole(Padded(stream), BLOCK)))
    {
      hide Compressed, Whole, Partial, Padded;
      if !finalized {
        Finalize();
        value := extract(state);
        finalized := true;
      }
      d := value;
    }
  }

  lemma BitLengthWrapped(n: nat)
    ensures 8 * (n % WORD) % WORD == BitLength(n)
  {
    assert n == WORD * (n / WORD) + n % WORD;
  }
}
