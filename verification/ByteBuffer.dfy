/** The FIFO buffer: a growing array of which the bytes from `head` up to `len` are
    live.  Removing from the front moves `head`; the live bytes are moved down only
    once the dead prefix dominates, or when room is needed. */
module ByteBuffer {
  import opened Prelude

  const SIZE_MAX: nat := 0xffff_ffff_ffff_ffff
  const MAX_ALLOC: nat := 0x7fff_ffff_ffff_ffff
  const INITBUFSIZE: nat := 8192

  /** The capacity after doubling from `n` until `required` fits; a doubling that
      would wrap around takes `required` itself. */
  function Grown(n: nat, required: nat): (size: nat)
    requires 1 <= n <= SIZE_MAX && required <= SIZE_MAX
    ensures required <= size <= SIZE_MAX && n <= size
    ensures n >= required ==> size == n
    ensures n < required && size != required ==> size < 2 * required
    decreases required - n
  {
    if n >= required then n
    else if 2 * n > SIZE_MAX then required
    else Grown(2 * n, required)
  }

  function FirstCapacity(capacity: nat): nat {
    if capacity == 0 then INITBUFSIZE else capacity
  }

  /** Whether a buffer of some capacity can come to hold `size` bytes. */
  predicate CanHold(capacity: nat, size: nat, allocates: bool)
    requires capacity <= SIZE_MAX && size <= SIZE_MAX
  {
    size <= capacity || (allocates && Grown(FirstCapacity(capacity), size) <= MAX_ALLOC)
  }

  method NextCapacity(capacity: nat, required: nat) returns (nsize: nat)
    requires capacity <= SIZE_MAX && required <= SIZE_MAX
    ensures nsize == Grown(FirstCapacity(capacity), required)
  {
    nsize := if capacity == 0 then INITBUFSIZE else capacity;
    while nsize < required
      invariant 1 <= nsize <= SIZE_MAX
      invariant Grown(nsize, required) == Grown(FirstCapacity(capacity), required)
      decreases required - nsize
    {
      var next := nsize * 2 % (SIZE_MAX + 1);
      assert next == if 2 * nsize <= SIZE_MAX then 2 * nsize else 2 * nsize - SIZE_MAX - 1;
      if next <= nsize {
        nsize := required;
        break;
      }
      nsize := next;
    }
  }

  /** The position of the first `c` at or after `from`. */
  function IndexOf(s: string, c: char, from: nat): (r: Option<nat>)
    ensures r.Some? ==> from <= r.value < |s| && s[r.value] == c && c !in s[from..r.value]
    ensures r.None? ==> forall i :: from <= i < |s| ==> s[i] != c
    decreases |s| - from
  {
    if from >= |s| then None
    else if s[from] == c then Some(from)
    else
      var r := IndexOf(s, c, from + 1);
      assert r.Some? ==> s[from..r.value] == [s[from]] + s[from + 1..r.value];
      r
  }

  /** Dropping from a slice is taking a later one. */
  lemma SliceDrop(s: string, lo: nat, mid: nat, hi: nat)
    requires lo <= mid <= hi <= |s|
    ensures s[lo..hi][mid - lo..] == s[mid..hi]
  {
  }

  class Buffer {
    var buf: array<char>
    var head: nat
    var len: nat
    const initialCapacity: nat

    // What `Remove` has cost: bytes removed, and bytes moved by its compactions.
    ghost var removed: nat
    ghost var moved: nat

    ghost predicate Valid()
      reads this
    {
      && head <= len <= buf.Length <= MAX_ALLOC && initialCapacity <= MAX_ALLOC
      && head <= removed && moved <= 2 * (removed - head)
    }

    function Contents(): (s: string)
      requires head <= len <= buf.Length
      reads this, buf
    {
      buf[head..len]
    }

    constructor (capacity: nat)
      requires capacity <= MAX_ALLOC
      ensures Valid() && Contents() == "" && removed == 0 && fresh(buf)
    {
      buf := new char[capacity](_ => '\0');
      head, len, initialCapacity := 0, 0, capacity;
      removed, moved := 0, 0;
    }

    method Size() returns (n: nat)
      requires Valid()
      ensures n == |Contents()|
    {
      n := len - head;
    }

    /** Move the live bytes to the front. */
    method Compact()
      requires Valid()
      modifies this`head, this`len, buf
      ensures Valid() && head == 0 && Contents() == old(Contents())
    {
      if head == 0 { return; }
      var live := len - head;
      forall i | 0 <= i < live { buf[i] := buf[head + i]; }
      head, len := 0, live;
    }

    /** Make room for `needed` more bytes.  The dead prefix is reclaimed before
        memory is asked for, and `allocates` is whether the allocator obliges. */
    method Resize(needed: nat, allocates: bool) returns (ok: bool)
      requires Valid() && needed <= SIZE_MAX
      modifies this, buf
      ensures Valid() && Contents() == old(Contents())
      ensures removed == old(removed) && moved == old(moved)
      ensures buf == old(buf) || fresh(buf)
      ensures ok ==> len + needed <= buf.Length
      ensures needed > SIZE_MAX - old(len) ==> !ok
      ensures old(buf.Length) < old(len) + needed <= SIZE_MAX ==>
                ok == CanHold(old(buf.Length), |Contents()| + needed, allocates)
    {
      hide Grown;
      if needed > SIZE_MAX - len { return false; }
      if head > 0 && len + needed > buf.Length { Compact(); }
      var required := len + needed;
      if required <= buf.Length { return true; }
      var nsize := NextCapacity(buf.Length, required);
      if nsize > MAX_ALLOC || !allocates { return false; }
      Relocate(nsize);
      return true;
    }

    /** Move into a larger array. */
    method Relocate(size: nat)
      requires Valid() && buf.Length <= size <= MAX_ALLOC
      modifies this`buf
      ensures Valid() && Contents() == old(Contents()) && fresh(buf) && buf.Length == size
    {
      var bigger := new char[size](_ => '\0');
      forall i | 0 <= i < len { bigger[i] := buf[i]; }
      assert bigger[head..len] == buf[head..len];
      buf := bigger;
    }

    /** Append all of `data`, or nothing of it when the buffer cannot be grown. */
    method Append(data: string, allocates: bool) returns (ok: bool)
      requires Valid()
      modifies this, buf
      ensures Valid() && (buf == old(buf) || fresh(buf))
      ensures Contents() == if ok then old(Contents()) + data else old(Contents())
      ensures removed == old(removed) && moved == old(moved)
      ensures ok == (|data| <= SIZE_MAX - old(len)
                     && CanHold(old(buf.Length), old(|Contents()|) + |data|, allocates))
    {
      hide Grown;
      if |data| > SIZE_MAX - len { return false; }
      if len + |data| > buf.Length {
        ok := Resize(|data|, allocates);
        if !ok { return; }
      }
      Write(data);
      ok := true;
    }

    /** Copy `data` behind the live bytes, where there is room for it. */
    method Write(data: string)
      requires Valid() && len + |data| <= buf.Length
      modifies this`len, buf
      ensures Valid() && Contents() == old(Contents()) + data
    {
      ghost var was := Contents();
      forall i | 0 <= i < |data| { buf[len + i] := data[i]; }
      len := len + |data|;
      ghost var now := Contents();
      assert |now| == |was + data| && forall i :: 0 <= i < |now| ==> now[i] == (was + data)[i];
    }

    method Advance(count: nat)
      requires Valid() && count <= len - head
      modifies this`head, this`removed
      ensures Valid() && head == old(head) + count && removed == old(removed) + count
      ensures Contents() == old(Contents())[count..]
    {
      SliceDrop(buf[..], head, head + count, len);
      head, removed := head + count, removed + count;
    }

    /** Drop the first `count` bytes, or all of them when there are fewer.  Over any
        run of calls, compaction here moves at most two bytes per byte removed. */
    method Remove(count: nat)
      requires Valid()
      modifies this, buf
      ensures Valid() && buf == old(buf)
      ensures var n := Least(count, old(|Contents()|));
              Contents() == old(Contents())[n..] && removed == old(removed) + n
      ensures moved <= 2 * removed
    {
      Advance(Least(count, len - head));
      if head == len {
        head, len := 0, 0;
      } else if head >= buf.Length / 2 {
        Reclaim();
      }
    }

    /** Give the dead prefix back once it is at least half of the buffer. */
    method Reclaim()
      requires Valid() && head >= buf.Length / 2
      modifies this, buf
      ensures Valid() && buf == old(buf) && Contents() == old(Contents()) && removed == old(removed)
    {
      ghost var cost := if head > 0 then len - head else 0;
      Compact();
      moved := moved + cost;
    }

    method Clear()
      requires Valid()
      modifies this
      ensures Valid() && Contents() == "" && buf.Length == initialCapacity && fresh(buf)
      ensures removed == old(removed) && moved == old(moved)
    {
      buf := new char[initialCapacity](_ => '\0');
      head, len := 0, 0;
    }

    /** Bounds checked; the NUL character past the end. */
    function At(offset: nat): (c: char)
      requires Valid()
      reads this, buf
      ensures c == if offset < |Contents()| then Contents()[offset] else '\0'
    {
      if offset >= len - head then '\0' else buf[head + offset]
    }

    /** The bytes in a range, or nothing when the range is not within the contents. */
    method CopyRange(lo: nat, hi: nat) returns (s: string)
      requires Valid()
      ensures s == if lo <= hi <= |Contents()| then Contents()[lo..hi] else ""
    {
      if lo > hi || hi > len - head { return ""; }
      s := buf[head + lo..head + hi];
      ghost var t := Contents()[lo..hi];
      assert |s| == |t| && forall i :: 0 <= i < |s| ==> s[i] == buf[head + lo + i] == t[i];
    }

    method Find(c: char, offset: nat) returns (r: Option<nat>)
      requires Valid()
      ensures r == IndexOf(Contents(), c, offset)
    {
      var i := offset;
      while i < len - head
        invariant offset <= i && IndexOf(Contents(), c, offset) == IndexOf(Contents(), c, i)
        decreases len - head - i
      {
        if buf[head + i] == c { return Some(i); }
        i := i + 1;
      }
      return None;
    }
  }
}
