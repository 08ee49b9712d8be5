/** Cutting a byte stream into blocks of a fixed size, as the base class of the
    digests does it: bytes are gathered in one block buffer that is handed over
    every time it is full. */
module BlockStream {
  import opened Octets

  /** The complete blocks of a stream. */
  function Whole(s: Bytes, n: nat): seq<Bytes>
    requires n >= 1
    decreases |s|
  {
    if |s| < n then [] else [s[..n]] + Whole(s[n..], n)
  }

  /** What is left behind the complete blocks. */
  function Partial(s: Bytes, n: nat): (r: Bytes)
    requires n >= 1
    ensures |r| < n
    decreases |s|
  {
    if |s| < n then s else Partial(s[n..], n)
  }

  /** Appending no more than what completes the pending block. */
  lemma {:induction false} Extend(s: Bytes, t: Bytes, n: nat)
    requires n >= 1 && |Partial(s, n)| + |t| <= n
    ensures |Partial(s, n)| + |t| < n ==>
              Whole(s + t, n) == Whole(s, n) && Partial(s + t, n) == Partial(s, n) + t
    ensures |Partial(s, n)| + |t| == n ==>
              Whole(s + t, n) == Whole(s, n) + [Partial(s, n) + t] && Partial(s + t, n) == []
    decreases |s|
  {
    var u := s + t;
    if |s| < n {
      if |u| == n {
        assert u[..n] == u && u[n..] == [];
        assert Whole(u[n..], n) == [];
      }
    } else {
      assert u[..n] == s[..n] && u[n..] == s[n..] + t;
      Extend(s[n..], t, n);
    }
  }

  /** The complete blocks of a stream stay when it goes on. */
  lemma {:induction false} WholePrefix(s: Bytes, t: Bytes, n: nat)
    requires n >= 1
    ensures Whole(s, n) <= Whole(s + t, n)
    decreases |s|
  {
    if |s| >= n {
      assert (s + t)[..n] == s[..n] && (s + t)[n..] == s[n..] + t;
      WholePrefix(s[n..], t, n);
    }
  }

  /** The block buffer of a digest. */
  class Accumulator {
    const size: nat
    const block: array<Byte>
    var index: nat

    ghost predicate Valid()
      reads this
    {
      block.Length == size && index < size
    }

    /** The bytes gathered so far. */
    function Pending(): Bytes
      requires index <= block.Length
      reads this, block
    {
      block[..index]
    }

    constructor (n: nat)
      requires n >= 1
      ensures Valid() && size == n && Pending() == [] && fresh(block)
    {
      size := n;
      block := new Byte[n](_ => 0);
      index := 0;
    }

    /** One turn of the update loop: gather as much of `data[offset..]` as fits.
        When that fills the block, it is the caller's to hash. */
    method Fill(data: Bytes, offset: nat) returns (next: nat, full: bool)
      requires Valid() && offset < |data|
      modifies this, block
      ensures Valid() && offset < next <= |data|
      ensures var gathered := old(Pending()) + data[offset..next];
              && |gathered| <= size
              && full == (|gathered| == size)
              && (if full then Pending() == [] && block[..] == gathered
                  else Pending() == gathered && next == |data|)
    {
      var take := |data| - offset;
      if take > size - index { take := size - index; }
      forall k | 0 <= k < take { block[index + k] := data[offset + k]; }
      next := offset + take;
      index := index + take;
      full := index == size;
      assert block[..index] == old(Pending()) + data[offset..next];
      if full {
        assert block[..index] == block[..];
        index := 0;
      }
    }
  }
}
