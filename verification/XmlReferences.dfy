/** What references stand for: the predefined entities and no others, and code points by
    number, as UTF-8. */
module XmlReferences {
  import opened Prelude
  import opened ByteBuffer
  import opened Text
  import opened XmlSyntax
  import opened XmlPrint

  // ---- numbers --------------------------------------------------------------------------------

  /** One more digit, in base ten or sixteen. */
  function Shifted(value: nat, hex: bool, d: nat): nat {
    value * Base(hex) + d
  }

  lemma {:induction false} CharNumberSnoc(digits: string, hex: bool, value: nat, c: char)
    ensures CharNumber(digits + [c], hex, value) ==
            if CharNumber(digits, hex, value).None? || Digit(c, Base(hex)).None? then None
            else var more := Shifted(CharNumber(digits, hex, value).value, hex, Digit(c, Base(hex)).value);
                 if more > 0x10ffff then None else Some(more)
    decreases |digits|
  {
    hide Digit;
    var all := digits + [c];
    if digits == "" {
      assert all == [c] && [c][1..] == "" && CharNumber("", hex, Shifted(value, hex, 0)).Some?;
    } else {
      assert all[0] == digits[0] && all[1..] == digits[1..] + [c];
      var d := Digit(digits[0], Base(hex));
      if d.Some? && Shifted(value, hex, d.value) <= 0x10ffff {
        CharNumberSnoc(digits[1..], hex, Shifted(value, hex, d.value), c);
      }
    }
  }

  /** Read exactly when every character is a digit and no code point is passed, and then
      the number denoted. */
  lemma {:induction false} CharNumberExact(digits: string, hex: bool)
    ensures CharNumber(digits, hex, 0).Some? <==> AllDigits(digits, Base(hex)) && Value(digits, Base(hex)) <= 0x10ffff
    ensures CharNumber(digits, hex, 0).Some? ==> CharNumber(digits, hex, 0).value == Value(digits, Base(hex))
  {
    hide CharNumber, Digit;
    if digits == "" {
      NoDigits(hex);
    } else {
      var init, c := digits[..|digits| - 1], digits[|digits| - 1];
      assert digits == init + [c];
      CharNumberExact(init, hex);
      CharNumberSnoc(init, hex, 0, c);
      assert AllDigits(digits, Base(hex)) <==> AllDigits(init, Base(hex)) && Digit(c, Base(hex)).Some?;
    }
  }

  lemma NoDigits(hex: bool)
    ensures CharNumber("", hex, 0) == Some(0)
  {
  }

  // ---- UTF-8 ----------------------------------------------------------------------------------

  predicate IsCodePoint(c: nat) {
    c <= 0x10ffff && !(0xd800 <= c <= 0xdfff)
  }

  predicate Continues(s: string, i: nat) {
    i < |s| && 0x80 <= s[i] as int < 0xc0
  }

  function Low(s: string, i: nat): int
    requires i < |s|
  {
    s[i] as int - 0x80
  }

  /** The code point at the start of a text, and how many bytes it takes: the lead byte says
      how many continuation bytes follow, by section 3 of RFC 3629. */
  function Decode(s: string): Option<(int, nat)> {
    if s == "" then None
    else
      var b := s[0] as int;
      if b < 0x80 then Some((b, 1))
      else if 0xc0 <= b < 0xe0 && Continues(s, 1) then Some(((b - 0xc0) * 64 + Low(s, 1), 2))
      else if 0xe0 <= b < 0xf0 && Continues(s, 1) && Continues(s, 2) then
        Some(((b - 0xe0) * 4096 + Low(s, 1) * 64 + Low(s, 2), 3))
      else if 0xf0 <= b < 0xf8 && Continues(s, 1) && Continues(s, 2) && Continues(s, 3) then
        Some(((b - 0xf0) * 262144 + Low(s, 1) * 4096 + Low(s, 2) * 64 + Low(s, 3), 4))
      else None
  }

  lemma Sixths(c: nat)
    ensures c == c / 64 * 64 + c % 64 && c / 4096 == c / 64 / 64 && c / 262144 == c / 4096 / 64
    ensures c / 64 == c / 4096 * 64 + c / 64 % 64 && c / 4096 == c / 262144 * 64 + c / 4096 % 64
  {
  }

  /** Every code point has an encoding, of bytes only, from which it is read back whatever
      follows; nothing else has one. */
  lemma Utf8RoundTrip(c: nat, rest: string)
    ensures Utf8(c).Some? <==> IsCodePoint(c)
    ensures Utf8(c).Some? ==>
              var bytes := Utf8(c).value;
              Decode(bytes + rest) == Some((c, |bytes|)) && forall i :: 0 <= i < |bytes| ==> bytes[i] as int < 256
  {
    Sixths(c);
    if Utf8(c).Some? {
      var bytes := Utf8(c).value;
      var s := bytes + rest;
      assert forall i :: 0 <= i < |bytes| ==> s[i] == bytes[i];
    }
  }

  // ---- whole references -----------------------------------------------------------------------

  /** The five predefined entities and nothing else. */
  lemma EntityExact(body: string, c: char)
    ensures Entity(body) == Some(c) <==> IsSpecial(c) && body == EntityName(c)
  {
    assert "amp" != "apos" && "lt" != "gt";
  }

  /** What a reference adds, or none when it may not be resolved. */
  function Meaning(body: string): Option<string>
    requires body != ""
  {
    if body[0] == '#' then
      match Numeric(body) case None => None case Some(v) => Utf8(v)
    else
      match Entity(body) case None => None case Some(c) => Some([c])
  }

  /** The letter A, by its number. */
  lemma NumberIs65()
    ensures Numeric("#65") == Some(65) && Utf8(65) == Some("A")
  {
    assert "#65"[1..] == "65" && "65"[1..] == "5" && "5"[1..] == "";
    assert CharNumber("5", false, 6) == Some(65);
  }

  lemma ReferenceFound(body: string, rest: string)
    requires body != "" && ';' !in body
    ensures var s := "&" + body + ";" + rest;
            IndexOf(s, ';', 0) == Some(|body| + 1) && s[1..|body| + 1] == body && s[|body| + 2..] == rest
  {
    var s := "&" + body + ";" + rest;
    assert s[|body| + 1] == ';' && s[1..|body| + 1] == body;
    SemicolonAt(s, |body| + 1);
  }

  /** A reference is resolved, rather than refused, exactly when it has a meaning, is not
      longer than the scan, and fits; it is never passed through. */
  lemma ReferenceExact(body: string, rest: string, out: string, reported: nat, limits: Limits)
    requires body != "" && ';' !in body
    ensures var r := Reference("&" + body + ";" + rest, out, reported, limits);
            var fits := if body[0] == '#' then |out| + 4 <= limits.maxTextLength
                        else reported + |out| + 1 <= limits.maxTextLength;
            && (r.Got? <==> Meaning(body).Some? && |body| <= 31 && fits)
            && (r.Got? ==> r == Got(out + Meaning(body).value, rest))
            && (r.Fail? ==> r.error == if |body| > 31 then Syntax
                                       else if body[0] == '#' && Numeric(body).None? then Syntax
                                       else if body[0] != '#' && Entity(body).None? then Syntax
                                       else if fits then Syntax else SizeExceeded)
  {
    hide Numeric, Utf8, Entity, IndexOf;
    ReferenceFound(body, rest);
  }
}
