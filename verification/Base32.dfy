/** Base32 of section 6 of RFC 4648, without padding: bytes and characters are two
    groupings, by eight and by five, of one string of bits. */
module Base32 {
  const ALPHABET: string := "ABCDEFGHIJKLMNOPQRSTUVWXYZ234567"

  type Bits = seq<bool>

  // ---- bits of bytes and of five-bit words, most significant first -------------------------

  function ByteBits(b: bv8): (bits: Bits)
    ensures |bits| == 8
  {
    [b & 0x80 != 0, b & 0x40 != 0, b & 0x20 != 0, b & 0x10 != 0, b & 8 != 0, b & 4 != 0, b & 2 != 0, b & 1 != 0]
  }

  function WordBits(w: bv8): (bits: Bits)
    ensures |bits| == 5
  {
    [w & 0x10 != 0, w & 8 != 0, w & 4 != 0, w & 2 != 0, w & 1 != 0]
  }

  function BytesBits(bytes: seq<bv8>): (bits: Bits)
    ensures |bits| == 8 * |bytes|
  {
    seq(8 * |bytes|, k requires 0 <= k < 8 * |bytes| => ByteBits(bytes[k / 8])[k % 8])
  }

  /** The bits cut off or filled up with zeros to a given number. */
  function Fitted(bits: Bits, n: nat): (r: Bits)
    ensures |r| == n
  {
    seq(n, k requires 0 <= k < n => k < |bits| && bits[k])
  }

  lemma ByteBitsInjective(a: bv8, b: bv8)
    requires ByteBits(a) == ByteBits(b)
    ensures a == b
  {
    var x, y := ByteBits(a), ByteBits(b);
    assert x[0] == y[0] && x[1] == y[1] && x[2] == y[2] && x[3] == y[3];
    assert x[4] == y[4] && x[5] == y[5] && x[6] == y[6] && x[7] == y[7];
  }

  lemma BytesBitsAt(bytes: seq<bv8>, i: nat)
    requires i < |bytes|
    ensures BytesBits(bytes)[8 * i..8 * i + 8] == ByteBits(bytes[i])
  {
    hide ByteBits;
    var s := BytesBits(bytes)[8 * i..8 * i + 8];
    forall k | 0 <= k < 8 ensures s[k] == ByteBits(bytes[i])[k] {
      assert (8 * i + k) / 8 == i && (8 * i + k) % 8 == k;
    }
  }

  lemma BytesBitsInjective(a: seq<bv8>, b: seq<bv8>)
    requires BytesBits(a) == BytesBits(b)
    ensures a == b
  {
    hide ByteBits, BytesBits;
    assert 8 * |a| == 8 * |b|;
    forall i | 0 <= i < |a| ensures a[i] == b[i] {
      BytesBitsAt(a, i);
      BytesBitsAt(b, i);
      ByteBitsInjective(a[i], b[i]);
    }
  }

  // The operators on unsigned bytes, under names that proofs can do without.
  function Or(b: bv8, c: bv8): bv8 {
    b | c
  }

  function Left(b: bv8, k: nat): bv8
    requires k <= 8
  {
    b << k
  }

  function Right(b: bv8, k: nat): bv8
    requires k <= 8
  {
    b >> k
  }

  lemma OrZero(b: bv8)
    ensures Or(b, 0) == b
  {
  }

  // ---- letters ------------------------------------------------------------------------------

  function Num(bits: Bits): (v: nat)
    requires |bits| == 5
    ensures v < 32
  {
    (if bits[0] then 16 else 0) + (if bits[1] then 8 else 0) + (if bits[2] then 4 else 0)
    + (if bits[3] then 2 else 0) + (if bits[4] then 1 else 0)
  }

  function Letter(bits: Bits): char
    requires |bits| == 5
  {
    ALPHABET[Num(bits)]
  }

  predicate IsLetter(c: char) {
    'A' <= c <= 'Z' || '2' <= c <= '7'
  }

  /** The value of a letter, by table 3 of RFC 4648. */
  function Value(c: char): (v: nat)
    requires IsLetter(c)
    ensures v < 32
  {
    if 'A' <= c <= 'Z' then c as int - 'A' as int else c as int - '2' as int + 26
  }

  function LetterBits(c: char): (bits: Bits)
    requires IsLetter(c)
    ensures |bits| == 5
  {
    var v := Value(c);
    [v / 16 % 2 == 1, v / 8 % 2 == 1, v / 4 % 2 == 1, v / 2 % 2 == 1, v % 2 == 1]
  }

  lemma AlphabetValue(v: nat)
    requires v < 32
    ensures IsLetter(ALPHABET[v]) && Value(ALPHABET[v]) == v
  {
  }

  lemma WordNum(w: bv8)
    requires w < 32
    ensures w as int == Num(WordBits(w))
  {
  }

  lemma NumBits(bits: Bits, v: nat)
    requires |bits| == 5 && v == Num(bits)
    ensures bits == [v / 16 % 2 == 1, v / 8 % 2 == 1, v / 4 % 2 == 1, v / 2 % 2 == 1, v % 2 == 1]
  {
  }

  lemma LetterRoundTrip(bits: Bits)
    requires |bits| == 5
    ensures IsLetter(Letter(bits)) && LetterBits(Letter(bits)) == bits
  {
    AlphabetValue(Num(bits));
    NumBits(bits, Num(bits));
  }

  lemma LetterOfWord(w: bv8)
    requires w < 32
    ensures ALPHABET[w as int] == Letter(WordBits(w))
    ensures IsLetter(ALPHABET[w as int]) && LetterBits(ALPHABET[w as int]) == WordBits(w)
  {
    WordNum(w);
    LetterRoundTrip(WordBits(w));
  }

  // ---- encoding -----------------------------------------------------------------------------

  function Words(len: nat): (n: nat) {
    (len * 8 + 4) / 5
  }

  /** The letters of the bits taken five at a time, the last ones filled up with zeros. */
  function Encoded(bytes: seq<bv8>): (s: string)
    ensures |s| == Words(|bytes|)
  {
    var bits := Fitted(BytesBits(bytes), 5 * Words(|bytes|));
    seq(Words(|bytes|), j requires 0 <= j < Words(|bytes|) => Letter(Five(bits, 5 * j)))
  }

  /** The five bits from a position on. */
  function Five(x: Bits, i: nat): Bits
    requires i + 5 <= |x|
  {
    [x[i], x[i + 1], x[i + 2], x[i + 3], x[i + 4]]
  }

  lemma WithinCases(b: bv8)
    ensures WordBits((b >> 3) & 0x1f) == Five(ByteBits(b), 0)
    ensures WordBits((b >> 2) & 0x1f) == Five(ByteBits(b), 1)
    ensures WordBits((b >> 1) & 0x1f) == Five(ByteBits(b), 2)
    ensures WordBits(b & 0x1f) == Five(ByteBits(b), 3)
  {
  }

  lemma WordWithin(b: bv8, index: nat)
    requires index <= 3
    ensures WordBits((b >> (8 - (index + 5))) & 0x1f) == Five(ByteBits(b), index)
    ensures (b >> (8 - (index + 5))) & 0x1f < 32
  {
    hide WordBits, ByteBits;
    WithinCases(b);
    var w := (b >> (8 - (index + 5))) & 0x1f;
    if index == 0 {
      assert w == (b >> 3) & 0x1f;
    } else if index == 1 {
      assert w == (b >> 2) & 0x1f;
    } else if index == 2 {
      assert w == (b >> 1) & 0x1f;
    } else {
      assert w == b & 0x1f;
    }
  }

  lemma AcrossCases(b: bv8, next: bv8)
    ensures var x, y := ByteBits(b), ByteBits(next);
            && WordBits(((b & 0x0f) << 1) | (next >> 7)) == [x[4], x[5], x[6], x[7], y[0]]
            && WordBits(((b & 0x07) << 2) | (next >> 6)) == [x[5], x[6], x[7], y[0], y[1]]
            && WordBits(((b & 0x03) << 3) | (next >> 5)) == [x[6], x[7], y[0], y[1], y[2]]
            && WordBits(((b & 0x01) << 4) | (next >> 4)) == [x[7], y[0], y[1], y[2], y[3]]
  {
  }

  function Across(b: bv8, next: bv8, index: nat): bv8
    requires 3 < index < 8
  {
    Or(Left(b & Right(0xff, index), index - 3), Right(next, 11 - index))
  }

  lemma AcrossShifts(b: bv8, next: bv8)
    ensures Across(b, next, 4) == ((b & 0x0f) << 1) | (next >> 7)
    ensures Across(b, next, 5) == ((b & 0x07) << 2) | (next >> 6)
    ensures Across(b, next, 6) == ((b & 0x03) << 3) | (next >> 5)
    ensures Across(b, next, 7) == ((b & 0x01) << 4) | (next >> 4)
  {
    hide Left, Right;
    LowBits();
    Shifted(b & 0x0f, next);
    Shifted(b & 0x07, next);
    Shifted(b & 0x03, next);
    Shifted(b & 0x01, next);
  }

  lemma Shifted(b: bv8, c: bv8)
    ensures Left(b, 1) == b << 1 && Left(b, 2) == b << 2 && Left(b, 3) == b << 3 && Left(b, 4) == b << 4
    ensures Right(c, 4) == c >> 4 && Right(c, 5) == c >> 5 && Right(c, 6) == c >> 6 && Right(c, 7) == c >> 7
  {
  }

  lemma LowBits()
    ensures Right(0xff, 4) == 0x0f && Right(0xff, 5) == 0x07 && Right(0xff, 6) == 0x03 && Right(0xff, 7) == 0x01
  {
  }

  lemma WordAcross(b: bv8, next: bv8, index: nat)
    requires 3 < index < 8
    ensures WordBits(Across(b, next, index)) == Five(ByteBits(b) + ByteBits(next), index)
    ensures Across(b, next, index) < 32
  {
    hide WordBits, ByteBits, Across;
    AcrossCases(b, next);
    AcrossShifts(b, next);
    assert index == 4 || index == 5 || index == 6 || index == 7;
  }

  /** The byte after the i-th, a zero byte behind the last. */
  function NextByte(bytes: seq<bv8>, i: nat): bv8 {
    if i + 1 < |bytes| then bytes[i + 1] else 0
  }

  lemma FittedAt(bytes: seq<bv8>, i: nat, k: nat, m: nat)
    requires i < |bytes| && k < 16 && 8 * i + k < m
    ensures Fitted(BytesBits(bytes), m)[8 * i + k] == (ByteBits(bytes[i]) + ByteBits(NextByte(bytes, i)))[k]
  {
    hide ByteBits;
    assert k < 8 ==> (8 * i + k) / 8 == i && (8 * i + k) % 8 == k;
    assert k >= 8 ==> (8 * i + k) / 8 == i + 1 && (8 * i + k) % 8 == k - 8;
    ZeroBits();
  }

  lemma ZeroBits()
    ensures ByteBits(0) == [false, false, false, false, false, false, false, false]
  {
  }

  lemma FiveOfBytes(bytes: seq<bv8>, i: nat, index: nat, m: nat)
    requires i < |bytes| && index < 8 && 8 * i + index + 5 <= m
    ensures Five(Fitted(BytesBits(bytes), m), 8 * i + index) == Five(ByteBits(bytes[i]) + ByteBits(NextByte(bytes, i)), index)
  {
    hide ByteBits, BytesBits, Fitted;
    FittedAt(bytes, i, index, m);
    FittedAt(bytes, i, index + 1, m);
    FittedAt(bytes, i, index + 2, m);
    FittedAt(bytes, i, index + 3, m);
    FittedAt(bytes, i, index + 4, m);
  }

  lemma RightOfZero(k: nat)
    requires k <= 8
    ensures Right(0, k) == 0
  {
  }

  /** The end of one byte and the start of the next, if there is one. */
  method JoinWord(buffer: seq<bv8>, i: nat, index: nat) returns (word: bv8)
    requires i < |buffer| && 3 < index < 8
    ensures word == Across(buffer[i], NextByte(buffer, i), index)
  {
    hide Or, Left, Right;
    var shift: nat := (index + 5) % 8;
    word := buffer[i] & Right(0xff, index);
    word := Left(word, shift);
    RightOfZero(8 - shift);
    OrZero(word);
    if i < |buffer| - 1 { word := Or(word, Right(buffer[i + 1], 8 - shift)); }
  }

  method TakeWord(buffer: seq<bv8>, i: nat, index: nat, ghost m: nat) returns (word: bv8)
    requires i < |buffer| && index < 8 && 8 * i + index + 5 <= m
    ensures word < 32 && WordBits(word) == Five(Fitted(BytesBits(buffer), m), 8 * i + index)
  {
    hide ByteBits, WordBits, Fitted, BytesBits, Across;
    FiveOfBytes(buffer, i, index, m);
    if index > 3 {
      WordAcross(buffer[i], NextByte(buffer, i), index);
      word := JoinWord(buffer, i, index);
    } else {
      WordWithin(buffer[i], index);
      word := (buffer[i] >> (8 - (index + 5))) & 0x1f;
    }
  }

  lemma EncodedAt(bytes: seq<bv8>, j: nat, word: bv8)
    requires j < Words(|bytes|) && word < 32
    requires WordBits(word) == Five(Fitted(BytesBits(bytes), 5 * Words(|bytes|)), 5 * j)
    ensures Encoded(bytes)[j] == ALPHABET[word as int]
  {
    hide ByteBits, WordBits, Fitted, BytesBits, Words, Letter, ALPHABET;
    LetterOfWord(word);
  }

  /** The characters behind the terminator stay as they are. */
  method Encode(buffer: seq<bv8>, result: array<char>) returns (n: nat)
    modifies result
    ensures result.Length == 0 ==> n == 0
    ensures result.Length > 0 ==>
              var s := if buffer != [] && result.Length >= Words(|buffer|) + 1 then Encoded(buffer) else "";
              n == |s| && result[..] == s + ['\0'] + old(result[..])[|s| + 1..]
  {
    hide Encoded;
    if result.Length == 0 { return 0; }
    if result.Length < Words(|buffer|) + 1 || |buffer| == 0 { result[0] := '\0'; return 0; }
    n := EncodeLoop(buffer, result);
    result[n] := '\0';
  }

  method EncodeLoop(buffer: seq<bv8>, result: array<char>) returns (n: nat)
    requires result.Length >= Words(|buffer|)
    modifies result
    ensures n == |Encoded(buffer)| && result[..] == Encoded(buffer) + old(result[..])[n..]
  {
    hide Encoded, WordBits, Five, Fitted, BytesBits;
    n := 0;
    var i: nat, index: nat := 0, 0;
    while i < |buffer|
      invariant i <= |buffer| && index < 8 && 8 * i + index == 5 * n && (i == |buffer| ==> index <= 4)
      invariant n <= Words(|buffer|)
      invariant forall j :: 0 <= j < n ==> result[j] == Encoded(buffer)[j]
      invariant forall j :: n <= j < result.Length ==> result[j] == old(result[j])
      decreases |buffer| - i, 8 - index
    {
      var word := TakeWord(buffer, i, index, 5 * Words(|buffer|));
      EncodedAt(buffer, n, word);
      i, index := Advance(i, index);
      result[n] := ALPHABET[word as int];
      n := n + 1;
    }
  }

  /** Five bits on: to the next byte when this one is used up. */
  method Advance(i: nat, index: nat) returns (i': nat, index': nat)
    requires index < 8
    ensures index' < 8 && 8 * i' + index' == 8 * i + index + 5
  {
    i', index' := i, (index + 5) % 8;
    if index > 3 || index' == 0 { i' := i + 1; }
  }

  // ---- decoding -----------------------------------------------------------------------------

  /** The bits of the letters, five each; what is not a letter counts for nothing. */
  function SourceBits(s: string): (bits: Bits) {
    if s == "" then []
    else
      var c := s[|s| - 1];
      SourceBits(s[..|s| - 1]) + if IsLetter(c) then LetterBits(c) else []
  }

  lemma ValueAlphabet(c: char)
    requires IsLetter(c)
    ensures ALPHABET[Value(c)] == c
  {
  }

  method FindLetter(c: char) returns (n: bv8)
    ensures n <= 32 && (n < 32 <==> IsLetter(c))
    ensures n < 32 ==> WordBits(n) == LetterBits(c)
  {
    hide WordBits, LetterBits;
    n := 0;
    while n < 32
      invariant n <= 32 && forall k :: 0 <= k < n as int ==> ALPHABET[k] != c
      decreases 32 - n as int
    {
      if c == ALPHABET[n as int] {
        LetterOfWord(n);
        return;
      }
      n := n + 1;
    }
    if IsLetter(c) { ValueAlphabet(c); }
  }

  /** What a word adds to the byte it starts in, and to the one behind that. */
  function First(n: bv8, index: nat): bv8
    requires index < 8
  {
    if index <= 3 then Left(n, 3 - index) else Right(n, index - 3)
  }

  function Second(n: bv8, index: nat): bv8
    requires index < 8
  {
    if index <= 3 then 0 else Left(n, 11 - index)
  }

  lemma OrMask(b: bv8, c: bv8, mask: bv8)
    ensures (b | c) & mask != 0 <==> b & mask != 0 || c & mask != 0
  {
  }

  function Mask(k: nat): bv8
    requires k < 8
  {
    if k == 0 then 0x80 else if k == 1 then 0x40 else if k == 2 then 0x20 else if k == 3 then 0x10
    else if k == 4 then 8 else if k == 5 then 4 else if k == 6 then 2 else 1
  }

  lemma ByteBitsAt(b: bv8, k: nat)
    requires k < 8
    ensures ByteBits(b)[k] == (b & Mask(k) != 0)
  {
  }

  lemma OrAt(b: bv8, c: bv8, k: nat)
    requires k < 8
    ensures ByteBits(Or(b, c))[k] == (ByteBits(b)[k] || ByteBits(c)[k])
  {
    hide ByteBits, Mask;
    ByteBitsAt(b, k);
    ByteBitsAt(c, k);
    ByteBitsAt(b | c, k);
    OrMask(b, c, Mask(k));
  }

  lemma FirstWithin(n: bv8)
    requires n < 32
    ensures var w, z := WordBits(n), false;
            && ByteBits(First(n, 0)) == [w[0], w[1], w[2], w[3], w[4], z, z, z]
            && ByteBits(First(n, 1)) == [z, w[0], w[1], w[2], w[3], w[4], z, z]
            && ByteBits(First(n, 2)) == [z, z, w[0], w[1], w[2], w[3], w[4], z]
            && ByteBits(First(n, 3)) == [z, z, z, w[0], w[1], w[2], w[3], w[4]]
  {
  }

  lemma FirstAcross(n: bv8)
    requires n < 32
    ensures var w, z := WordBits(n), false;
            && ByteBits(First(n, 4)) == [z, z, z, z, w[0], w[1], w[2], w[3]]
            && ByteBits(First(n, 5)) == [z, z, z, z, z, w[0], w[1], w[2]]
            && ByteBits(First(n, 6)) == [z, z, z, z, z, z, w[0], w[1]]
            && ByteBits(First(n, 7)) == [z, z, z, z, z, z, z, w[0]]
  {
  }

  lemma SecondAcross(n: bv8)
    requires n < 32
    ensures var w, z := WordBits(n), false;
            && ByteBits(Second(n, 4)) == [w[4], z, z, z, z, z, z, z]
            && ByteBits(Second(n, 5)) == [w[3], w[4], z, z, z, z, z, z]
            && ByteBits(Second(n, 6)) == [w[2], w[3], w[4], z, z, z, z, z]
            && ByteBits(Second(n, 7)) == [w[1], w[2], w[3], w[4], z, z, z, z]
  {
  }

  /** The word is spread over the bits from `index` on, and nothing else is set. */
  lemma FirstAt(n: bv8, index: nat, k: nat)
    requires n < 32 && index < 8 && k < 8
    ensures ByteBits(First(n, index))[k] == (index <= k < index + 5 && WordBits(n)[k - index])
  {
    hide ByteBits, WordBits, First;
    if index <= 3 {
      FirstWithin(n);
      assert index == 0 || index == 1 || index == 2 || index == 3;
    } else {
      FirstAcross(n);
      assert index == 4 || index == 5 || index == 6 || index == 7;
    }
  }

  lemma SecondAt(n: bv8, index: nat, k: nat)
    requires n < 32 && index < 8 && k < 8
    ensures ByteBits(Second(n, index))[k] == (8 + k < index + 5 && WordBits(n)[8 + k - index])
  {
    hide ByteBits, WordBits;
    SecondAcross(n);
    ZeroBits();
    assert index <= 3 || index == 4 || index == 5 || index == 6 || index == 7;
  }

  /** Both bytes with the word put in; there is no second one at the end of the buffer. */
  function Put(bytes: seq<bv8>, offset: nat, index: nat, n: bv8): (r: seq<bv8>)
    requires offset < |bytes| && index < 8
    ensures |r| == |bytes|
  {
    var r := bytes[offset := Or(bytes[offset], First(n, index))];
    if offset + 1 < |r| then r[offset + 1 := Or(r[offset + 1], Second(n, index))] else r
  }

  lemma BitOf(bytes: seq<bv8>, p: nat)
    requires p < 8 * |bytes|
    ensures BytesBits(bytes)[p] == ByteBits(bytes[p / 8])[p % 8]
  {
    hide ByteBits;
  }

  lemma PutAt(bytes: seq<bv8>, offset: nat, index: nat, n: bv8, p: nat)
    requires offset < |bytes| && index < 8 && n < 32 && p < 8 * |bytes|
    ensures var from := 8 * offset + index;
            BytesBits(Put(bytes, offset, index, n))[p]
            == (BytesBits(bytes)[p] || (from <= p < from + 5 && WordBits(n)[p - from]))
  {
    hide ByteBits, WordBits, First, Second, BytesBits, Or;
    var j, k := p / 8, p % 8;
    BitOf(bytes, p);
    BitOf(Put(bytes, offset, index, n), p);
    if j == offset {
      OrAt(bytes[offset], First(n, index), k);
      FirstAt(n, index, k);
    } else if j == offset + 1 {
      OrAt(bytes[offset + 1], Second(n, index), k);
      SecondAt(n, index, k);
    }
  }

  /** Adding a word keeps the buffer the bits gathered so far, filled up with zeros. */
  lemma PutHolds(bytes: seq<bv8>, bits: Bits, n: bv8)
    requires |bits| / 8 < |bytes| && n < 32 && BytesBits(bytes) == Fitted(bits, 8 * |bytes|)
    ensures BytesBits(Put(bytes, |bits| / 8, |bits| % 8, n)) == Fitted(bits + WordBits(n), 8 * |bytes|)
  {
    hide BytesBits, WordBits, Put;
    var r, more := Put(bytes, |bits| / 8, |bits| % 8, n), bits + WordBits(n);
    assert 8 * (|bits| / 8) + |bits| % 8 == |bits|;
    forall p | 0 <= p < 8 * |bytes| ensures BytesBits(r)[p] == Fitted(more, 8 * |bytes|)[p] {
      PutAt(bytes, |bits| / 8, |bits| % 8, n, p);
      assert Fitted(bits, 8 * |bytes|)[p] == (p < |bits| && bits[p]);
    }
  }

  lemma {:induction false} SourceBitsGrow(s: string, i: nat)
    requires i <= |s|
    ensures SourceBits(s[..i]) <= SourceBits(s)
  {
    hide IsLetter, LetterBits;
    if i == |s| {
      assert s[..i] == s;
    } else {
      SourceBitsGrow(s[..|s| - 1], i);
      assert s[..|s| - 1][..i] == s[..i];
    }
  }

  lemma FittedPrefix(bits: Bits, more: Bits, n: nat)
    requires n <= |bits| && bits <= more
    ensures Fitted(bits, n) == Fitted(more, n)
  {
  }

  /** The bits of the letters go into the buffer as far as it reaches; the number of bytes
      that they fill is returned. */
  method Decode(source: string, dst: array<bv8>) returns (offset: nat)
    modifies dst
    ensures BytesBits(dst[..]) == Fitted(SourceBits(source), 8 * dst.Length)
    ensures var filled := |SourceBits(source)| / 8;
            offset == if filled < dst.Length then filled else dst.Length
  {
    hide BytesBits, Fitted, SourceBits, Put;
    if dst.Length == 0 { EmptyBits(dst[..], SourceBits(source)); return 0; }
    forall i | 0 <= i < dst.Length { dst[i] := 0; }
    offset := 0;
    var index: nat := 0;
    ghost var bits: Bits := [];
    ZeroBytes(dst[..]);
    SourceBitsNone();
    for i := 0 to |source|
      invariant offset < dst.Length && index < 8 && |bits| == 8 * offset + index && bits == SourceBits(source[..i])
      invariant BytesBits(dst[..]) == Fitted(bits, 8 * dst.Length)
    {
      var n := FindLetter(source[i]);
      SourceBitsNext(source, i);
      if n == 32 { continue; }
      PutHolds(dst[..], bits, n);
      offset, index := PutWord(dst, offset, index, n);
      bits := bits + WordBits(n);
      if offset == dst.Length {
        SourceBitsGrow(source, i + 1);
        FittedPrefix(bits, SourceBits(source), 8 * dst.Length);
        return;
      }
    }
    assert source[..|source|] == source;
  }

  lemma PutShifts(n: bv8, index: nat)
    requires index < 8
    ensures var index' := (index + 5) % 8;
            && (index < 3 ==> First(n, index) == Left(n, 8 - index'))
            && (index == 3 ==> First(n, index) == n)
            && (index > 3 ==> First(n, index) == Right(n, index') && Second(n, index) == Left(n, 8 - index'))
  {
    hide Left, Right;
    NotShifted(n);
  }

  lemma NotShifted(n: bv8)
    ensures Left(n, 0) == n
  {
  }

  method PutWord(dst: array<bv8>, offset: nat, index: nat, n: bv8) returns (offset': nat, index': nat)
    requires offset < dst.Length && index < 8 && n < 32
    modifies dst
    ensures dst[..] == Put(old(dst[..]), offset, index, n)
    ensures index' < 8 && 8 * offset' + index' == 8 * offset + index + 5
  {
    hide First, Left, Right, Or;
    PutShifts(n, index);
    if offset + 1 < dst.Length { OrZero(dst[offset + 1]); }
    offset' := offset;
    index' := (index + 5) % 8;
    if index <= 3 {
      if index' == 0 {
        dst[offset] := Or(dst[offset], n);
        offset' := offset + 1;
      } else {
        dst[offset] := Or(dst[offset], Left(n, 8 - index'));
      }
    } else {
      dst[offset] := Or(dst[offset], Right(n, index'));
      offset' := offset + 1;
      if offset' != dst.Length { dst[offset'] := Or(dst[offset'], Left(n, 8 - index')); }
    }
  }

  lemma EmptyBits(bytes: seq<bv8>, bits: Bits)
    requires bytes == []
    ensures BytesBits(bytes) == Fitted(bits, 0)
  {
  }

  lemma ZeroBytes(bytes: seq<bv8>)
    requires forall i :: 0 <= i < |bytes| ==> bytes[i] == 0
    ensures BytesBits(bytes) == Fitted([], 8 * |bytes|)
  {
    ZeroBits();
  }

  lemma SourceBitsNone()
    ensures SourceBits("") == []
  {
  }

  lemma SourceBitsNext(s: string, i: nat)
    requires i < |s|
    ensures SourceBits(s[..i + 1]) == SourceBits(s[..i]) + if IsLetter(s[i]) then LetterBits(s[i]) else []
  {
    assert s[..i + 1][..i] == s[..i];
  }

  // ---- the round trip --------------------------------------------------------------------------

  /** The letters of a text. */
  function Kept(s: string): string {
    if s == "" then ""
    else Kept(s[..|s| - 1]) + if IsLetter(s[|s| - 1]) then [s[|s| - 1]] else []
  }

  lemma {:induction false} NoiseIsSkipped(s: string)
    ensures SourceBits(Kept(s)) == SourceBits(s)
  {
    hide IsLetter, LetterBits;
    if s != "" {
      var init, c := s[..|s| - 1], s[|s| - 1];
      NoiseIsSkipped(init);
      if IsLetter(c) {
        var kept := Kept(init) + [c];
        assert kept[..|kept| - 1] == Kept(init) && kept[|kept| - 1] == c;
        assert Kept(s) == kept;
      } else {
        assert Kept(s) == Kept(init);
      }
    }
  }

  /** Exactly ceil(8n / 5) characters, all of them letters. */
  lemma EncodedIsLetters(bytes: seq<bv8>)
    ensures 5 * |Encoded(bytes)| - 5 < 8 * |bytes| <= 5 * |Encoded(bytes)|
    ensures forall j :: 0 <= j < |Encoded(bytes)| ==> IsLetter(Encoded(bytes)[j])
  {
    hide Fitted, BytesBits, IsLetter, Letter;
    var bits := Fitted(BytesBits(bytes), 5 * Words(|bytes|));
    forall j | 0 <= j < |Encoded(bytes)| ensures IsLetter(Encoded(bytes)[j]) {
      LetterRoundTrip(Five(bits, 5 * j));
    }
  }

  lemma {:induction false} EncodedBits(bytes: seq<bv8>, j: nat)
    requires j <= Words(|bytes|)
    ensures SourceBits(Encoded(bytes)[..j]) == Fitted(BytesBits(bytes), 5 * Words(|bytes|))[..5 * j]
  {
    hide Fitted, BytesBits, IsLetter, LetterBits, Letter, Words;
    if j == 0 {
      assert Encoded(bytes)[..0] == "";
    } else {
      var bits := Fitted(BytesBits(bytes), 5 * Words(|bytes|));
      EncodedBits(bytes, j - 1);
      SourceBitsNext(Encoded(bytes), j - 1);
      LetterRoundTrip(Five(bits, 5 * (j - 1)));
      FiveMore(bits, 5 * (j - 1));
    }
  }

  lemma FiveMore(bits: Bits, i: nat)
    requires i + 5 <= |bits|
    ensures bits[..i] + Five(bits, i) == bits[..i + 5]
  {
  }

  /** Whatever stands between the letters, decoding what was encoded into a buffer of the
      original length restores every byte, and reports all of them. */
  lemma RoundTrip(bytes: seq<bv8>, source: string, dst: seq<bv8>)
    requires Kept(source) == Encoded(bytes) && |dst| == |bytes|
    requires BytesBits(dst) == Fitted(SourceBits(source), 8 * |dst|)
    ensures dst == bytes && |SourceBits(source)| / 8 == |bytes|
  {
    hide BytesBits, SourceBits, Kept, Encoded, Fitted;
    var m := 5 * Words(|bytes|);
    NoiseIsSkipped(source);
    EncodedBits(bytes, Words(|bytes|));
    assert Encoded(bytes)[..Words(|bytes|)] == Encoded(bytes);
    assert Fitted(BytesBits(bytes), m)[..m] == Fitted(BytesBits(bytes), m);
    FittedTwice(BytesBits(bytes), m);
    BytesBitsInjective(dst, bytes);
  }

  lemma FittedTwice(bits: Bits, m: nat)
    requires |bits| <= m
    ensures Fitted(Fitted(bits, m), |bits|) == bits
  {
  }

  lemma {:induction false} LettersAreKept(s: string)
    requires forall j :: 0 <= j < |s| ==> IsLetter(s[j])
    ensures Kept(s) == s
  {
    if s != "" { LettersAreKept(s[..|s| - 1]); }
  }

  /** With nothing in between, in particular. */
  lemma PlainRoundTrip(bytes: seq<bv8>, dst: seq<bv8>)
    requires |dst| == |bytes| && BytesBits(dst) == Fitted(SourceBits(Encoded(bytes)), 8 * |dst|)
    ensures dst == bytes && |SourceBits(Encoded(bytes))| / 8 == |bytes|
  {
    hide BytesBits, SourceBits, Kept, Encoded, Fitted, IsLetter;
    EncodedIsLetters(bytes);
    LettersAreKept(Encoded(bytes));
    RoundTrip(bytes, Encoded(bytes), dst);
  }
}
