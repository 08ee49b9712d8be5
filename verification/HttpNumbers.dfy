/** The two number readers of the HTTP parser: a decimal length and a hexadecimal
    chunk size, both of which refuse before the multiplication would wrap. */
module HttpNumbers {
  import opened Prelude
  import opened ByteBuffer
  import opened Text

  /** What the loop has read after the characters of `text`. */
  function Read(text: string, base: nat): Option<nat>
    requires base >= 2
  {
    if text == "" then Some(0)
    else
      var last := |text| - 1;
      match (Read(text[..last], base), Digit(text[last], base))
      case (Some(v), Some(d)) => if v > (SIZE_MAX - (base - 1)) / base then None else Some(v * base + d)
      case _ => None
  }

  /** The largest number that is read. */
  function Largest(base: nat): nat
    requires base == 10 || base == 16
  {
    if base == 10 then 18446744073709551609 else SIZE_MAX
  }

  /** What is read is the number denoted, and it is read exactly when every
      character is a digit and the number does not exceed the largest one. */
  lemma {:induction false} ReadExact(text: string, base: nat)
    requires base == 10 || base == 16
    ensures Read(text, base).Some? <==> AllDigits(text, base) && Value(text, base) <= Largest(base)
    ensures Read(text, base).Some? ==> Read(text, base).value == Value(text, base)
  {
    if text != "" {
      var init := text[..|text| - 1];
      ReadExact(init, base);
      assert AllDigits(text, base) <==> AllDigits(init, base) && Digit(text[|text| - 1], base).Some?;
      if base == 10 {
        assert (SIZE_MAX - 9) / 10 == 1844674407370955160;
      } else {
        assert (SIZE_MAX - 15) / 16 == 0xfff_ffff_ffff_ffff;
      }
    }
  }

  function ParseSize(text: string): Option<nat> {
    if text == "" then None else Read(text, 10)
  }

  /** The part of a chunk-size line in front of an extension, trimmed. */
  function ChunkSizeText(line: string): string {
    Trim(match IndexOf(line, ';', 0) case None => line case Some(semi) => line[..semi])
  }

  function ParseChunkSize(line: string): Option<nat> {
    var text := ChunkSizeText(line);
    if text == "" then None else Read(text, 16)
  }

  /** Of the lengths that fit a size_t exactly the last six are refused, because the
      decimal reader leaves room for a digit 9 throughout. */
  lemma LengthsRefused(text: string)
    requires text != "" && AllDigits(text, 10) && Value(text, 10) <= SIZE_MAX
    ensures ParseSize(text) == if Value(text, 10) < SIZE_MAX - 5 then Some(Value(text, 10)) else None
  {
    hide Value, Read;
    ReadExact(text, 10);
  }

  /** Every chunk size that fits is read. */
  lemma ChunkSizesRead(line: string)
    requires ChunkSizeText(line) != "" && AllDigits(ChunkSizeText(line), 16)
    ensures var v := Value(ChunkSizeText(line), 16); ParseChunkSize(line) == if v <= SIZE_MAX then Some(v) else None
  {
    hide Value, Read;
    ReadExact(ChunkSizeText(line), 16);
  }

  lemma ValueSnoc(text: string, c: char, v: nat)
    requires AllDigits(text, 10) && Value(text, 10) == v && '0' <= c <= '9'
    ensures AllDigits(text + [c], 10) && Value(text + [c], 10) == 10 * v + (c as nat - '0' as nat)
  {
    assert (text + [c])[..|text|] == text;
  }

  predicate IsDecimal(c: char) {
    '0' <= c <= '9'
  }

  function Decimal(c: char): nat
    requires IsDecimal(c)
  {
    c as nat - '0' as nat
  }

  lemma FiveMore(text: string, more: string, v: nat)
    requires AllDigits(text, 10) && Value(text, 10) == v && |more| == 5
    requires IsDecimal(more[0]) && IsDecimal(more[1]) && IsDecimal(more[2]) && IsDecimal(more[3]) && IsDecimal(more[4])
    ensures AllDigits(text + more, 10)
    ensures Value(text + more, 10) == 100000 * v + 10000 * Decimal(more[0]) + 1000 * Decimal(more[1])
                                      + 100 * Decimal(more[2]) + 10 * Decimal(more[3]) + Decimal(more[4])
  {
    hide Value, AllDigits;
    var t1, t2 := text + [more[0]], text + [more[0]] + [more[1]];
    var t3, t4 := t2 + [more[2]], t2 + [more[2]] + [more[3]];
    ValueSnoc(text, more[0], v);
    ValueSnoc(t1, more[1], Value(t1, 10));
    ValueSnoc(t2, more[2], Value(t2, 10));
    ValueSnoc(t3, more[3], Value(t3, 10));
    ValueSnoc(t4, more[4], Value(t4, 10));
    assert t4 + [more[4]] == text + more;
  }

  lemma NoDigits()
    ensures AllDigits("", 10) && Value("", 10) == 0
  {
  }

  lemma TenDigits()
    ensures AllDigits("1844674407", 10) && Value("1844674407", 10) == 1844674407
  {
    hide Value, AllDigits;
    NoDigits();
    FiveMore("", "18446", 0);
    assert "" + "18446" == "18446";
    FiveMore("18446", "74407", 18446);
    assert "18446" + "74407" == "1844674407";
  }

  lemma FifteenDigits()
    ensures AllDigits("184467440737095", 10) && Value("184467440737095", 10) == 184467440737095
  {
    hide Value, AllDigits;
    TenDigits();
    FiveMore("1844674407", "37095", 1844674407);
    assert "1844674407" + "37095" == "184467440737095";
  }

  /** One of the six: the largest size_t. */
  lemma LargestRefused()
    ensures ParseSize("18446744073709551615") == None
  {
    hide Value, Read, AllDigits, ParseSize;
    FifteenDigits();
    FiveMore("184467440737095", "51615", 184467440737095);
    assert "184467440737095" + "51615" == "18446744073709551615";
    LengthsRefused("18446744073709551615");
  }

  method ReadLoop(text: string, base: nat) returns (out: Option<nat>)
    requires base == 10 || base == 16
    ensures out == Read(text, base)
  {
    var value := 0;
    var i := 0;
    while i < |text|
      invariant i <= |text| && Read(text[..i], base) == Some(value)
    {
      var d := Digit(text[i], base);
      assert text[..i + 1][..i] == text[..i];
      if d.None? || value > (SIZE_MAX - (base - 1)) / base {
        ReadStuck(text, base, i + 1);
        return None;
      }
      value := value * base + d.value;
      i := i + 1;
    }
    assert text[..i] == text;
    out := Some(value);
  }

  lemma {:induction false} ReadStuck(text: string, base: nat, i: nat)
    requires base >= 2 && i <= |text| && Read(text[..i], base).None?
    ensures Read(text, base).None?
    decreases |text|
  {
    if i == |text| {
      assert text[..i] == text;
    } else {
      var init := text[..|text| - 1];
      assert init[..i] == text[..i];
      ReadStuck(init, base, i);
    }
  }

  // ---- printing a chunk size --------------------------------------------------------

  function HexDigit(d: nat): (c: char)
    requires d < 16
    ensures Digit(c, 16) == Some(d) && !IsSpace(c) && c != ';' && c != '\n' && c != '\r'
  {
    if d < 10 then ('0' as nat + d) as char else ('a' as nat + d - 10) as char
  }

  function Hex(n: nat): (s: string)
    ensures s != ""
  {
    if n < 16 then [HexDigit(n)] else Hex(n / 16) + [HexDigit(n % 16)]
  }

  ghost predicate Plain(s: string) {
    forall i :: 0 <= i < |s| ==> !IsSpace(s[i]) && s[i] != ';' && s[i] != '\n' && s[i] != '\r'
  }

  lemma {:induction false} HexDenotes(n: nat)
    ensures Plain(Hex(n)) && AllDigits(Hex(n), 16) && Value(Hex(n), 16) == n
  {
    var s := Hex(n);
    if n < 16 {
      assert s[..0] == "";
      assert Value("", 16) == 0;
    } else {
      HexDenotes(n / 16);
      assert s[..|s| - 1] == Hex(n / 16);
    }
  }

  /** A printed chunk size is read back. */
  lemma ChunkSizeRoundTrip(n: nat)
    requires n <= SIZE_MAX
    ensures ParseChunkSize(Hex(n)) == Some(n)
  {
    hide Hex, Value, Read, Digit;
    var s := Hex(n);
    HexDenotes(n);
    assert IndexOf(s, ';', 0).None?;
    TrimmedIsTrim(s);
    ReadExact(s, 16);
  }
}
