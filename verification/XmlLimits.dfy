/** The bounds that the parser promises on what it reports. */
module XmlLimits {
  import opened ByteBuffer
  import opened Text
  import opened XmlEvents
  import opened XmlSyntax

  // ---- every event, on every input ----------------------------------------------------------------

  predicate ValuesFit(attributes: Attributes, limits: Limits) {
    forall i :: 0 <= i < |attributes| ==> |attributes[i].1| <= limits.maxTextLength
  }

  predicate EventFits(e: Event, limits: Limits) {
    match e
    case Start(p, n, a) =>
      |p| + |n| <= limits.maxNameLength && |a| <= limits.maxAttributes && ValuesFit(a, limits)
    case End(p, n) => |p| + |n| <= limits.maxNameLength
    case Text(chunk) => 0 < |chunk| <= limits.maxTextLength
  }

  function Starts(events: seq<Event>): nat {
    if events == [] then 0 else Starts(events[..|events| - 1]) + if events[|events| - 1].Start? then 1 else 0
  }

  predicate AllFit(events: seq<Event>, limits: Limits) {
    forall i :: 0 <= i < |events| ==> EventFits(events[i], limits)
  }

  predicate Bounded(st: State, limits: Limits) {
    AllFit(st.events, limits) && Starts(st.events) == st.elements <= limits.maxElements
  }

  lemma StartsSnoc(events: seq<Event>, e: Event)
    ensures Starts(events + [e]) == Starts(events) + if e.Start? then 1 else 0
  {
    assert (events + [e])[..|events|] == events;
  }

  lemma Utf8IsShort(c: nat)
    ensures Utf8(c).Some? ==> 1 <= |Utf8(c).value| <= 4
  {
  }

  lemma ReferenceFits(s: string, out: string, reported: nat, limits: Limits)
    requires s != "" && s[0] == '&' && Reference(s, out, reported, limits).Got?
    ensures |out| < |Reference(s, out, reported, limits).value| <= limits.maxTextLength
  {
    hide IndexOf, Entity, Utf8;
    var body := s[1..IndexOf(s, ';', 0).value];
    if body[0] == '#' {
      hide Numeric;
      Utf8IsShort(Numeric(body).value);
    }
  }

  lemma {:induction false} ValueFits(s: string, quote: char, value: string, reported: nat, limits: Limits)
    requires |value| <= limits.maxTextLength && ParseValue(s, quote, value, reported, limits).Got?
    ensures |ParseValue(s, quote, value, reported, limits).value| <= limits.maxTextLength
    decreases |s|
  {
    hide Reference, Plain;
    if s[0] == quote {
    } else if s[0] == '&' {
      ReferenceFits(s, value, reported, limits);
      var r := Reference(s, value, reported, limits);
      ValueFits(r.rest, quote, r.value, reported, limits);
    } else {
      var k := Plain(s, quote);
      ValueFits(s[k..], quote, value + s[..k], reported, limits);
    }
  }

  lemma {:induction false} RunFits(s: string, out: string, reported: nat, limits: Limits)
    requires |out| <= limits.maxTextLength && ParseRun(s, out, reported, limits).Got?
    ensures |ParseRun(s, out, reported, limits).value| <= limits.maxTextLength
    decreases |s|
  {
    hide Reference, Plain;
    if s == "" || s[0] == '<' {
    } else if s[0] == '&' {
      ReferenceFits(s, out, reported, limits);
      var r := Reference(s, out, reported, limits);
      RunFits(r.rest, r.value, reported, limits);
    } else {
      var k := Plain(s, '<');
      RunFits(s[k..], out + s[..k], reported, limits);
    }
  }

  lemma NameFits(s: string, limits: Limits)
    requires ParseName(s, limits).Got?
    ensures var n := ParseName(s, limits).value; |n.prefix| + |n.local| <= limits.maxNameLength
  {
    hide NameLength, IsNameStart;
  }

  lemma {:induction false} AttributesBounded(s: string, list: Attributes, reported: nat, limits: Limits)
    requires |list| <= limits.maxAttributes && ValuesFit(list, limits)
    requires ParseAttributes(s, list, reported, limits).Got?
    ensures var tag := ParseAttributes(s, list, reported, limits).value;
            |tag.attributes| <= limits.maxAttributes && ValuesFit(tag.attributes, limits)
    decreases |s|
  {
    hide ParseAttribute, TrimLeft;
    TrimLeftSplits(s);
    var t := TrimLeft(s);
    if t[0] == '>' || "/>" <= t {
    } else {
      var r := ParseAttribute(t, reported, limits);
      AttributeBounded(t, reported, limits);
      AttributesBounded(r.rest, list + [r.value], reported, limits);
    }
  }

  lemma AttributeBounded(s: string, reported: nat, limits: Limits)
    requires ParseAttribute(s, reported, limits).Got?
    ensures |ParseAttribute(s, reported, limits).value.1| <= limits.maxTextLength
  {
    hide ParseName, ParseEquals, ParseValue;
    var name := ParseName(s, limits);
    var quote := ParseEquals(name.rest);
    ValueFits(quote.rest, quote.value, "", reported, limits);
  }

  lemma EmitBounded(st: State, chunk: string, limits: Limits)
    requires Bounded(st, limits) && st.stack != [] && |chunk| <= limits.maxTextLength
    ensures Bounded(Emit(st, chunk), limits)
  {
    hide Starts;
    StartsSnoc(st.events, Text(chunk));
  }

  lemma ElementBounded(s: string, st: State, limits: Limits)
    requires s != "" && Bounded(st, limits) && ElementStep(s, st, limits).Got?
    ensures Bounded(ElementStep(s, st, limits).value, limits)
  {
    hide Starts, ParseName, ParseAttributes, Reported, ValuesFit;
    var name := ParseName(s[1..], limits);
    NameFits(s[1..], limits);
    NoValues(limits);
    AttributesBounded(name.rest, [], Reported(st), limits);
    var tag := ParseAttributes(name.rest, [], Reported(st), limits).value;
    var start := Start(name.value.prefix, name.value.local, tag.attributes);
    StartsSnoc(st.events, start);
    StartsSnoc(st.events + [start], End(name.value.prefix, name.value.local));
  }

  lemma NoValues(limits: Limits)
    ensures ValuesFit([], limits)
  {
  }

  lemma EndBounded(s: string, st: State, limits: Limits)
    requires |s| >= 2 && Bounded(st, limits) && EndStep(s, st, limits).Got?
    ensures Bounded(EndStep(s, st, limits).value, limits)
  {
    hide Starts, ParseName, TrimLeft;
    NameFits(s[2..], limits);
    var n := ParseName(s[2..], limits).value;
    StartsSnoc(st.events, End(n.prefix, n.local));
  }

  lemma StepBounded(s: string, st: State, limits: Limits)
    requires s != "" && Bounded(st, limits) && Step(s, st, limits).Got?
    ensures Bounded(Step(s, st, limits).value, limits)
  {
    hide Bounded, MiscStep, EndStep, ElementStep, ParseRun, Find, Emit;
    if s[0] != '<' {
      if st.stack != [] {
        RunFits(s, "", Reported(st), limits);
        EmitBounded(st, ParseRun(s, "", Reported(st), limits).value, limits);
      }
    } else if "<![CDATA[" <= s {
      EmitBounded(st, s[9..][..Find(s[9..], "]]>").value], limits);
    } else if "<!" <= s || "<?" <= s {
    } else if "</" <= s {
      EndBounded(s, st, limits);
    } else {
      ElementBounded(s, st, limits);
    }
  }

  lemma {:induction false} LoopBounded(s: string, st: State, limits: Limits)
    requires Bounded(st, limits)
    ensures AllFit(Loop(s, st, limits).events, limits) && Starts(Loop(s, st, limits).events) <= limits.maxElements
    decreases |s|
  {
    hide Step, AllFit, Starts;
    if s != "" {
      var r := Step(s, st, limits);
      if r.Got? {
        StepBounded(s, st, limits);
        LoopBounded(r.rest, r.value, limits);
      }
    }
  }

  /** On every input: no more elements, attributes, name characters or characters in one
      piece of data than the limits say. */
  lemma EveryInputBounded(text: string, limits: Limits)
    ensures var events := Parse(text, limits).events;
            AllFit(events, limits) && Starts(events) <= limits.maxElements
  {
    hide Loop;
    LoopBounded(if BOM <= text then text[3..] else text, State([], 0, false, []), limits);
  }

  // ---- the text that is left is the end of what there was ------------------------------------------

  predicate Suffix(rest: string, s: string) {
    |rest| <= |s| && rest == s[|s| - |rest|..]
  }

  lemma SuffixOf(s: string, k: nat)
    requires k <= |s|
    ensures Suffix(s[k..], s)
  {
  }

  lemma SuffixOfSuffix(a: string, b: string, c: string)
    requires Suffix(a, b) && Suffix(b, c)
    ensures Suffix(a, c)
  {
    assert c[|c| - |b|..][|b| - |a|..] == c[|c| - |a|..];
  }

  lemma ReferenceLeaves(s: string, out: string, reported: nat, limits: Limits)
    requires s != "" && s[0] == '&' && Reference(s, out, reported, limits).Got?
    ensures Suffix(Reference(s, out, reported, limits).rest, s)
  {
    hide IndexOf, Entity, Utf8, Numeric, Suffix;
    SuffixOf(s, IndexOf(s, ';', 0).value + 1);
  }

  lemma {:induction false} ValueLeaves(s: string, quote: char, value: string, reported: nat, limits: Limits)
    requires ParseValue(s, quote, value, reported, limits).Got?
    ensures Suffix(ParseValue(s, quote, value, reported, limits).rest, s)
    decreases |s|
  {
    hide Reference, Plain, Suffix;
    var all := ParseValue(s, quote, value, reported, limits);
    if s[0] == quote {
      SuffixOf(s, 1);
    } else if s[0] == '&' {
      ReferenceLeaves(s, value, reported, limits);
      var r := Reference(s, value, reported, limits);
      ValueLeaves(r.rest, quote, r.value, reported, limits);
      SuffixOfSuffix(all.rest, r.rest, s);
    } else {
      var k := Plain(s, quote);
      SuffixOf(s, k);
      ValueLeaves(s[k..], quote, value + s[..k], reported, limits);
      SuffixOfSuffix(all.rest, s[k..], s);
    }
  }

  lemma {:induction false} RunLeaves(s: string, out: string, reported: nat, limits: Limits)
    requires ParseRun(s, out, reported, limits).Got?
    ensures Suffix(ParseRun(s, out, reported, limits).rest, s)
    decreases |s|
  {
    hide Reference, Plain, Suffix;
    var all := ParseRun(s, out, reported, limits);
    if s == "" || s[0] == '<' {
      SuffixOf(s, 0);
      assert s[0..] == s;
    } else if s[0] == '&' {
      ReferenceLeaves(s, out, reported, limits);
      var r := Reference(s, out, reported, limits);
      RunLeaves(r.rest, r.value, reported, limits);
      SuffixOfSuffix(all.rest, r.rest, s);
    } else {
      var k := Plain(s, '<');
      SuffixOf(s, k);
      RunLeaves(s[k..], out + s[..k], reported, limits);
      SuffixOfSuffix(all.rest, s[k..], s);
    }
  }

  lemma NameLeaves(s: string, limits: Limits)
    requires ParseName(s, limits).Got?
    ensures Suffix(ParseName(s, limits).rest, s)
  {
    hide NameLength, SplitName, Suffix;
    SuffixOf(s, NameLength(s));
  }

  lemma TrimLeaves(s: string)
    ensures Suffix(TrimLeft(s), s)
  {
    TrimLeftSplits(s);
  }

  lemma AttributeLeaves(s: string, reported: nat, limits: Limits)
    requires ParseAttribute(s, reported, limits).Got?
    ensures Suffix(ParseAttribute(s, reported, limits).rest, s)
  {
    hide ParseName, ParseValue, TrimLeft, Suffix;
    var name := ParseName(s, limits).rest;
    var t := TrimLeft(name);
    var u := TrimLeft(t[1..]);
    NameLeaves(s, limits);
    TrimLeaves(name);
    SuffixOf(t, 1);
    TrimLeaves(t[1..]);
    SuffixOf(u, 1);
    ValueLeaves(u[1..], u[0], "", reported, limits);
    var rest := ParseAttribute(s, reported, limits).rest;
    SuffixOfSuffix(rest, u[1..], u);
    SuffixOfSuffix(rest, u, t[1..]);
    SuffixOfSuffix(rest, t[1..], t);
    SuffixOfSuffix(rest, t, name);
    SuffixOfSuffix(rest, name, s);
  }

  lemma {:induction false} AttributesLeave(s: string, list: Attributes, reported: nat, limits: Limits)
    requires ParseAttributes(s, list, reported, limits).Got?
    ensures Suffix(ParseAttributes(s, list, reported, limits).rest, s)
    decreases |s|
  {
    hide ParseAttribute, TrimLeft, Suffix;
    var rest, t := ParseAttributes(s, list, reported, limits).rest, TrimLeft(s);
    TrimLeaves(s);
    TrimLeftSplits(s);
    if t[0] == '>' {
      SuffixOf(t, 1);
    } else if "/>" <= t {
      SuffixOf(t, 2);
    } else {
      var r := ParseAttribute(t, reported, limits);
      AttributeLeaves(t, reported, limits);
      AttributesLeave(r.rest, list + [r.value], reported, limits);
      SuffixOfSuffix(rest, r.rest, t);
    }
    SuffixOfSuffix(rest, t, s);
  }

  lemma ElementLeaves(s: string, st: State, limits: Limits)
    requires s != "" && ElementStep(s, st, limits).Got?
    ensures Suffix(ElementStep(s, st, limits).rest, s)
  {
    hide ParseName, ParseAttributes, Suffix, Opened, Reported;
    var rest, name := ElementStep(s, st, limits).rest, ParseName(s[1..], limits).rest;
    SuffixOf(s, 1);
    NameLeaves(s[1..], limits);
    AttributesLeave(name, [], Reported(st), limits);
    SuffixOfSuffix(rest, name, s[1..]);
    SuffixOfSuffix(rest, s[1..], s);
  }

  lemma EndLeaves(s: string, st: State, limits: Limits)
    requires |s| >= 2 && EndStep(s, st, limits).Got?
    ensures Suffix(EndStep(s, st, limits).rest, s)
  {
    hide ParseName, Suffix, TrimLeft;
    var rest, name := EndStep(s, st, limits).rest, ParseName(s[2..], limits).rest;
    var t := TrimLeft(name);
    SuffixOf(s, 2);
    NameLeaves(s[2..], limits);
    TrimLeaves(name);
    SuffixOf(t, 1);
    SuffixOfSuffix(rest, t, name);
    SuffixOfSuffix(rest, name, s[2..]);
    SuffixOfSuffix(rest, s[2..], s);
  }

  lemma StepLeaves(s: string, st: State, limits: Limits)
    requires s != "" && Step(s, st, limits).Got?
    ensures Suffix(Step(s, st, limits).rest, s)
  {
    hide Suffix, EndStep, ElementStep, ParseRun, Find, Emit, Reported;
    if s[0] != '<' {
      if st.stack != [] { RunLeaves(s, "", Reported(st), limits); } else { SuffixOf(s, 1); }
    } else if "<![CDATA[" <= s {
      SkipLeaves(s, 9, Find(s[9..], "]]>").value + 3);
    } else if "<!--" <= s {
      SkipLeaves(s, 4, Find(s[4..], "-->").value + 3);
    } else if "<?" <= s {
      SkipLeaves(s, 2, Find(s[2..], "?>").value + 2);
    } else if "</" <= s {
      EndLeaves(s, st, limits);
    } else {
      ElementLeaves(s, st, limits);
    }
  }

  lemma SkipLeaves(s: string, a: nat, b: nat)
    requires a + b <= |s|
    ensures Suffix(s[a..][b..], s)
  {
    assert s[a..][b..] == s[a + b..];
  }
}
