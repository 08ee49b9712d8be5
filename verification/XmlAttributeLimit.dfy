/** The limit on an attribute value.  Plain characters and entities are held against the
    limit together with the character data already reported for the element around,
    although that data is not part of the value; a numeric reference is held against it
    without that data, but for four bytes. */
module XmlAttributeLimit {
  import opened Prelude
  import opened ByteBuffer
  import opened Text
  import opened XmlEvents
  import opened XmlSyntax
  import opened XmlPrint
  import opened XmlReferences
  import opened XmlRoundTrip

  // ---- every value --------------------------------------------------------------------------

  function Most(a: nat, b: nat): nat {
    if a < b then b else a
  }

  /** A reference without any limit. */
  function Resolved(s: string, out: string): (r: Parsed<string>)
    requires s != "" && s[0] == '&'
    ensures r.Got? ==> |r.rest| < |s|
  {
    match IndexOf(s, ';', 0)
    case None => Fail(Truncated)
    case Some(semi) =>
      if semi > 32 || semi == 1 then Fail(Syntax)
      else match Meaning(s[1..semi]) case None => Fail(Syntax) case Some(bytes) => Got(out + bytes, s[semi + 1..])
  }

  /** The reference at the start of the text names a character by its number, which may
      still not be one that can be encoded. */
  predicate IsNumeric(s: string)
    requires s != "" && s[0] == '&'
  {
    var semi := IndexOf(s, ';', 0);
    semi.Some? && 1 < semi.value <= 32 && s[1] == '#' && Numeric(s[1..semi.value]).Some?
  }

  /** The value without any limit. */
  function Assembled(s: string, quote: char, out: string): Parsed<string>
    decreases |s|
  {
    if s == "" then Fail(Truncated)
    else if s[0] == quote then Got(out, s[1..])
    else if s[0] == '<' then Fail(Syntax)
    else if s[0] == '&' then
      match Resolved(s, out) {
        case Fail(e) => Fail(e)
        case Got(v, rest) => Assembled(rest, quote, v)
      }
    else
      var k := Plain(s, quote);
      Assembled(s[k..], quote, out + s[..k])
  }

  /** The length assembled up to the last piece that is not a numeric reference, or 0
      when there is none. */
  function Charged(s: string, quote: char, out: string): nat
    decreases |s|
  {
    if s == "" || s[0] == quote || s[0] == '<' then 0
    else if s[0] == '&' then
      match Resolved(s, out) {
        case Fail(_) => 0
        case Got(v, rest) => Most(if IsNumeric(s) then 0 else |v|, Charged(rest, quote, v))
      }
    else
      var k := Plain(s, quote);
      Most(|out| + k, Charged(s[k..], quote, out + s[..k]))
  }

  /** The length assembled in front of the last numeric reference and four more, or 0 when
      there is none. */
  function NumericNeed(s: string, quote: char, out: string): nat
    decreases |s|
  {
    if s == "" || s[0] == quote || s[0] == '<' then 0
    else if s[0] == '&' then
      Most(if IsNumeric(s) then |out| + 4 else 0,
           match Resolved(s, out) { case Fail(_) => 0 case Got(v, rest) => NumericNeed(rest, quote, v) })
    else
      var k := Plain(s, quote);
      NumericNeed(s[k..], quote, out + s[..k])
  }

  /** Nothing is charged, or it fits together with what was reported. */
  predicate Fits(charged: nat, reported: nat, limits: Limits) {
    charged == 0 || reported + charged <= limits.maxTextLength
  }

  lemma ReferenceLimit(s: string, out: string, reported: nat, limits: Limits)
    requires s != "" && s[0] == '&'
    ensures var r := Resolved(s, out);
            var need := if IsNumeric(s) then |out| + 4 else if r.Got? then reported + |out| + 1 else 0;
            Reference(s, out, reported, limits) == if need <= limits.maxTextLength then r else Fail(SizeExceeded)
    ensures Resolved(s, out).Got? && !IsNumeric(s) ==> |Resolved(s, out).value| == |out| + 1
  {
    hide Numeric, Utf8, Entity, IndexOf;
  }

  /** Every value, in either quotes: it is taken as it stands, or refused as it stands,
      exactly when what is charged fits together with what was reported and each numeric
      reference has four bytes left; otherwise it is too large. */
  lemma {:induction false} ValueLimit(s: string, quote: char, out: string, reported: nat, limits: Limits)
    ensures ParseValue(s, quote, out, reported, limits)
            == if Fits(Charged(s, quote, out), reported, limits) && NumericNeed(s, quote, out) <= limits.maxTextLength
               then Assembled(s, quote, out) else Fail(SizeExceeded)
    decreases |s|
  {
    hide Reference, Resolved, IsNumeric;
    if s == "" || s[0] == quote || s[0] == '<' {
    } else if s[0] == '&' {
      ReferenceLimit(s, out, reported, limits);
      var r := Resolved(s, out);
      if r.Got? { ValueLimit(r.rest, quote, r.value, reported, limits); }
    } else {
      var k := Plain(s, quote);
      ValueLimit(s[k..], quote, out + s[..k], reported, limits);
    }
  }

  /** What was reported for the element around changes the outcome exactly when it does
      not fit together with what is charged, and the value would not be too large anyhow. */
  lemma ReportedMatters(s: string, quote: char, reported: nat, limits: Limits)
    ensures ParseValue(s, quote, "", reported, limits) != ParseValue(s, quote, "", 0, limits) <==>
            && !Fits(Charged(s, quote, ""), reported, limits)
            && ParseValue(s, quote, "", 0, limits) != Fail(SizeExceeded)
  {
    hide ParseValue, Charged, NumericNeed, Assembled;
    ValueLimit(s, quote, "", reported, limits);
    ValueLimit(s, quote, "", 0, limits);
  }

  lemma LetterResolves(out: string)
    ensures var s := "&#65;\""; IsNumeric(s) && Resolved(s, out) == Got(out + "A", "\"")
  {
    hide Numeric, Utf8, IndexOf;
    NumberIs65();
    ReferenceFound("#65", "\"");
    assert "&" + "#65" + ";" + "\"" == "&#65;\"";
  }

  lemma LetterNeeds(out: string)
    ensures var s := "&#65;\"";
            && Assembled(s, '"', out) == Got(out + "A", "")
            && Charged(s, '"', out) == 0 && NumericNeed(s, '"', out) == |out| + 4
  {
    hide Resolved, IsNumeric;
    LetterResolves(out);
    assert "\""[1..] == "";
  }

  /** Four bytes are reported and the limit is four: a value of one more is taken. */
  lemma NumericTaken(limits: Limits)
    requires limits.maxTextLength == 4
    ensures ParseValue("&#65;\"", '"', "", 4, limits) == Got("A", "")
  {
    hide ParseValue, Assembled, Charged, NumericNeed;
    LetterNeeds("");
    assert "" + "A" == "A";
    ValueLimit("&#65;\"", '"', "", 4, limits);
  }

  /** Nothing is reported and the limit is five: a value of three is refused. */
  lemma NumericRefused(limits: Limits)
    requires limits.maxTextLength == 5
    ensures Assembled("xx&#65;\"", '"', "") == Got("xxA", "")
    ensures ParseValue("xx&#65;\"", '"', "", 0, limits) == Fail(SizeExceeded)
  {
    hide ParseValue;
    var s := "xx&#65;\"";
    PlainXX();
    LetterNeeds("xx");
    assert s[2..] == "&#65;\"" && "" + s[..2] == "xx" && "xx" + "A" == "xxA";
    ValueLimit(s, '"', "", 0, limits);
  }

  lemma PlainXX()
    ensures Plain("xx&#65;\"", '"') == 2
  {
    var s := "xx&#65;\"";
    assert s[1..][0] == 'x' && s[1..][1..][0] == '&';
  }

  // ---- escaped values ------------------------------------------------------------------------

  lemma ReferenceTooLong(c: char, s: string, out: string, reported: nat, limits: Limits)
    requires IsSpecial(c) && reported + |out| + 1 > limits.maxTextLength
    ensures Reference(EscapeChar(c) + s, out, reported, limits) == Fail(SizeExceeded)
  {
    hide IndexOf, EntityName, Entity, EscapeChar, IsSpecial;
    EntityIs(c);
    EscapedIs(c, s);
  }

  lemma CharTooLong(c: char, s: string, out: string, reported: nat, limits: Limits)
    requires reported + |out| + 1 > limits.maxTextLength
    ensures ParseValue(EscapeChar(c) + s, '"', out, reported, limits) == Fail(SizeExceeded)
  {
    var t := EscapeChar(c) + s;
    if IsSpecial(c) {
      ReferenceTooLong(c, s, out, reported, limits);
    } else {
      assert t[0] == c && Plain(t, '"') >= 1;
    }
  }

  lemma {:induction false} ValueTooLong(v: string, s: string, out: string, reported: nat, limits: Limits)
    requires v != "" && reported + |out| + |v| > limits.maxTextLength
    ensures ParseValue(Escape(v) + s, '"', out, reported, limits) == Fail(SizeExceeded)
    decreases |v|
  {
    hide ParseValue, EscapeChar;
    Assoc(EscapeChar(v[0]), Escape(v[1..]), s);
    if reported + |out| + 1 > limits.maxTextLength {
      CharTooLong(v[0], Escape(v[1..]) + s, out, reported, limits);
    } else {
      ValueChar(v[0], Escape(v[1..]) + s, out, reported, limits);
      ValueTooLong(v[1..], s, out + [v[0]], reported, limits);
    }
  }

  /** A value as the printer writes it, without numeric references, is taken if and only if
      it is empty or fits together with what was reported for the element around. */
  lemma ValueExact(v: string, rest: string, reported: nat, limits: Limits)
    ensures ParseValue(Escape(v) + "\"" + rest, '"', "", reported, limits)
            == if v == "" || reported + |v| <= limits.maxTextLength then Got(v, rest) else Fail(SizeExceeded)
  {
    hide ParseValue, Escape;
    Assoc(Escape(v), "\"", rest);
    if v == "" {
      NoValue(rest, reported, limits);
    } else if reported + |v| <= limits.maxTextLength {
      ValueParses(v, rest, reported, limits);
    } else {
      ValueTooLong(v, "\"" + rest, "", reported, limits);
    }
  }

  lemma NoValue(rest: string, reported: nat, limits: Limits)
    ensures ParseValue(Escape("") + "\"" + rest, '"', "", reported, limits) == Got("", rest)
  {
    var s := Escape("") + "\"" + rest;
    assert s[0] == '"' && s[1..] == rest;
  }

  // ---- a value within the limit that is refused ----------------------------------------------------

  const SMALL: Limits := Limits(100, 2, 2, 1, 4, 1)

  const INNER: Tree := Tree("", "b", [("c", "y")], [], "")

  const OUTER: Tree := Tree("", "a", [], [Chars("xxxx")] + [Child(INNER)], "")

  lemma InnerIs()
    ensures StartTag(INNER) == "<b c=\"y\">" && Nameable("", "a", SMALL) && Nameable("", "b", SMALL)
    ensures SplitName("c") == Some(Name("", "c")) && Nameable("", "c", SMALL)
  {
    EscapePlain("y");
    assert INNER.attributes[1..] == [] && PrintAttributes([]) == "";
    assert PrintAttribute(("c", "y")) == "c=\"y\"";
  }

  /** On its own the inner element is fine. */
  lemma InnerIsAdmitted()
    ensures Admitted(INNER, SMALL)
  {
    InnerIs();
  }

  /** The attribute behind the name of the inner element. */
  function InnerAttribute(rest: string): string {
    "c" + ("=\"" + (Escape("y") + "\"" + (">" + rest)))
  }

  lemma InnerText(rest: string)
    ensures var s := StartTag(INNER) + rest;
            s[1..] == "b" + (" " + InnerAttribute(rest)) && s[0] == '<' && s[1] == 'b'
  {
    hide StartTag, Escape;
    InnerIs();
    EscapePlain("y");
    assert StartTag(INNER) + rest == "<b c=\"y\">" + rest;
  }

  lemma BehindTrimmed(rest: string)
    ensures TrimLeft(" " + InnerAttribute(rest)) == InnerAttribute(rest) && InnerAttribute(rest)[0] == 'c'
  {
    hide Escape;
    assert (" " + InnerAttribute(rest))[1..] == InnerAttribute(rest);
  }

  lemma BehindRefused(rest: string)
    ensures ParseAttribute(InnerAttribute(rest), 4, SMALL) == Fail(SizeExceeded)
  {
    hide ParseName, ParseValue, ParseEquals, Escape, SplitName, Nameable;
    InnerIs();
    var value := Escape("y") + "\"" + (">" + rest);
    assert Written("", "c") == "c";
    NameParses("", "c", "=\"" + value, SMALL);
    EqualsParses(value);
    ValueExact("y", ">" + rest, 4, SMALL);
  }

  /** Within an element that has four characters already, its start tag is refused, for a
      value of one. */
  lemma InnerRefused(rest: string, st: State)
    requires st.stack != [] && |st.stack| < 2 && st.elements < 2 && Reported(st) == 4
    ensures Step(StartTag(INNER) + rest, st, SMALL) == Fail(SizeExceeded)
  {
    hide ParseName, ParseAttribute, StartTag, InnerAttribute, Reported, Nameable, TrimLeft;
    InnerIs();
    InnerText(rest);
    BehindTrimmed(rest);
    BehindRefused(rest);
    assert Written("", "b") == "b";
    NameParses("", "b", " " + InnerAttribute(rest), SMALL);
  }

  lemma OuterText()
    ensures Print(OUTER) == StartTag(OUTER) + ("xxxx" + (StartTag(INNER) + (EndTag("", "b") + EndTag("", "a"))))
  {
    hide StartTag, EndTag, Escape;
    var none: seq<Item> := [];
    assert none + [Chars("xxxx")] == [Chars("xxxx")] && PrintItems(none) == "";
    PrintSnoc([Chars("xxxx")], Child(INNER));
    PrintSnoc(none, Chars("xxxx"));
    EscapePlain("xxxx");
    assert PrintItems(INNER.items) == "" && Print(INNER) == StartTag(INNER) + "" + EndTag("", "b");
    assert StartTag(INNER) + "" == StartTag(INNER) && "" + "xxxx" == "xxxx";
    Regrouped(StartTag(OUTER), "xxxx", StartTag(INNER), EndTag("", "b"), EndTag("", "a"));
  }

  lemma Regrouped(a: string, b: string, c: string, d: string, e: string)
    ensures a + (b + (c + d)) + e == a + (b + (c + (d + e)))
  {
  }

  /** The inner element is within the limits, and the document with it inside the outer one
      is refused. */
  lemma OuterRefused()
    ensures Admitted(INNER, SMALL)
    ensures Parse(Print(OUTER), SMALL).error == Some(SizeExceeded)
  {
    hide Loop, Step, StartTag, EndTag, Escape, Print, Nameable, Emit, Admitted;
    InnerIsAdmitted();
    var inner := StartTag(INNER) + (EndTag("", "b") + EndTag("", "a"));
    OuterText();
    OuterShort();
    InnerIs();
    EscapePlain("xxxx");
    PrintIsMarkup(OUTER, "");
    assert Print(OUTER) + "" == Print(OUTER);
    StartParses(OUTER, "xxxx" + inner, NOTHING_YET, SMALL);
    LoopStep(Print(OUTER), NOTHING_YET, SMALL);
    OpenedIs(NOTHING_YET, OUTER);
    var st := Step(Print(OUTER), NOTHING_YET, SMALL).value;
    TagIsMarkup(INNER, EndTag("", "b") + EndTag("", "a"));
    CharsParse("xxxx", inner, st, SMALL);
    LoopStep("xxxx" + inner, st, SMALL);
    EmittedFour(st);
    InnerRefused(EndTag("", "b") + EndTag("", "a"), Emit(st, "xxxx"));
    LoopFails(inner, Emit(st, "xxxx"), SMALL);
  }

  lemma OuterShort()
    ensures |Print(OUTER)| == 24
  {
    hide Print, StartTag, Escape;
    OuterText();
    InnerIs();
    assert StartTag(OUTER) == "<a>" by { OuterStart(); }
    assert EndTag("", "b") == "</b>" && EndTag("", "a") == "</a>";
  }

  lemma OuterStart()
    ensures StartTag(OUTER) == "<a>"
  {
  }

  lemma EmittedFour(st: State)
    requires st.stack != [] && Reported(st) == 0
    ensures var e := Emit(st, "xxxx"); |e.stack| == |st.stack| && Reported(e) == 4 && e.elements == st.elements
  {
  }

  lemma LoopFails(s: string, st: State, limits: Limits)
    requires s != "" && Step(s, st, limits).Fail?
    ensures Loop(s, st, limits).error == Some(Step(s, st, limits).error)
  {
  }
}
