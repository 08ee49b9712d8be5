/** The limit on the character data of one element.  A numeric reference is held against
    the limit without the data that was reported before; the limit is kept exactly by the
    documents in which every reference would also pass with that data counted. */
module XmlTextLimit {
  import opened Prelude
  import opened ByteBuffer
  import opened Text
  import opened XmlEvents
  import opened XmlSyntax
  import opened XmlNesting
  import opened XmlPrint
  import opened XmlReferences
  import opened XmlRoundTrip
  import opened XmlLimits

  /** Every reference of a run passes with what was reported before counted: the guard
      that the numeric branch lacks. */
  predicate StrictRun(s: string, out: string, reported: nat, limits: Limits)
    decreases |s|
  {
    if s == "" || s[0] == '<' then true
    else if s[0] == '&' then
      match Reference(s, out, reported, limits) {
        case Fail(_) => true
        case Got(v, rest) => reported + |v| <= limits.maxTextLength && StrictRun(rest, v, reported, limits)
      }
    else
      var k := Plain(s, '<');
      StrictRun(s[k..], out + s[..k], reported, limits)
  }

  /** All the runs of character data of a document do. */
  predicate RunsFit(s: string, st: State, limits: Limits)
    decreases |s|
  {
    s == "" ||
    match Step(s, st, limits)
    case Fail(_) => true
    case Got(st', rest) =>
      (s[0] != '<' && st.stack != [] ==> StrictRun(s, "", Reported(st), limits)) && RunsFit(rest, st', limits)
  }

  lemma {:induction false} RunGrows(s: string, out: string, reported: nat, limits: Limits)
    requires ParseRun(s, out, reported, limits).Got?
    ensures |out| <= |ParseRun(s, out, reported, limits).value|
    decreases |s|
  {
    hide Reference, Plain;
    if s == "" || s[0] == '<' {
    } else if s[0] == '&' {
      ReferenceFits(s, out, reported, limits);
      var r := Reference(s, out, reported, limits);
      RunGrows(r.rest, r.value, reported, limits);
    } else {
      var k := Plain(s, '<');
      RunGrows(s[k..], out + s[..k], reported, limits);
    }
  }

  /** A run passes the guard throughout exactly when it ends within the limit. */
  lemma {:induction false} StrictRunExact(s: string, out: string, reported: nat, limits: Limits)
    requires reported + |out| <= limits.maxTextLength && ParseRun(s, out, reported, limits).Got?
    ensures StrictRun(s, out, reported, limits)
            <==> reported + |ParseRun(s, out, reported, limits).value| <= limits.maxTextLength
    decreases |s|
  {
    hide Reference, Plain;
    if s == "" || s[0] == '<' {
    } else if s[0] == '&' {
      var r := Reference(s, out, reported, limits);
      RunGrows(r.rest, r.value, reported, limits);
      if reported + |r.value| <= limits.maxTextLength { StrictRunExact(r.rest, r.value, reported, limits); }
    } else {
      var k := Plain(s, '<');
      StrictRunExact(s[k..], out + s[..k], reported, limits);
    }
  }

  // ---- the data of every element in the tree ----------------------------------------------------------

  predicate TextWithin(t: Tree, max: nat) {
    |TextOf(t.items)| <= max && ItemsWithin(t.items, max)
  }

  predicate ItemWithin(item: Item, max: nat) {
    match item case Chars(_) => true case Child(t) => TextWithin(t, max)
  }

  predicate ItemsWithin(items: seq<Item>, max: nat) {
    items == [] || (ItemsWithin(items[..|items| - 1], max) && ItemWithin(items[|items| - 1], max))
  }

  lemma WithinSnoc(items: seq<Item>, item: Item, max: nat)
    ensures ItemsWithin(items + [item], max) <==> ItemsWithin(items, max) && ItemWithin(item, max)
  {
    assert (items + [item])[..|items|] == items;
  }

  /** Each open element holds as much data as is counted for it, and that within the limit. */
  predicate Counted(z: Zipper, stack: seq<Open>, max: nat) {
    && |z.open| == |stack|
    && (forall i :: 0 <= i < |stack| ==>
          |TextOf(z.open[i].items)| == stack[i].textLength && TextWithin(z.open[i], max))
    && (z.root.Some? ==> TextWithin(z.root.value, max))
  }

  predicate InvText(st: State, max: nat) {
    Zip(st.events).Some? && Counted(Zip(st.events).value, st.stack, max)
  }

  lemma StartCounts(z: Zipper, stack: seq<Open>, p: string, n: string, a: Attributes, max: nat)
    requires Counted(z, stack, max) && Grow(z, Start(p, n, a)).Some?
    ensures Counted(Grow(z, Start(p, n, a)).value, stack + [Open(p, n, 0)], max)
  {
    hide TextOf;
    var t := Tree(p, n, a, [], "");
    NoText();
    assert TextWithin(t, max);
  }

  lemma NoText()
    ensures TextOf([]) == ""
  {
  }

  lemma EndCounts(z: Zipper, stack: seq<Open>, p: string, n: string, max: nat)
    requires Counted(z, stack, max) && Grow(z, End(p, n)).Some?
    ensures Counted(Grow(z, End(p, n)).value, stack[..|stack| - 1], max)
  {
    hide TextOf, ItemsWithin, TextWithin;
    var k := |z.open| - 1;
    var t := z.open[k].(endPrefix := p);
    SameText(z.open[k], p, max);
    if k > 0 { ChildWithin(z.open[k - 1], t, max); }
  }

  lemma SameText(t: Tree, p: string, max: nat)
    ensures TextWithin(t.(endPrefix := p), max) == TextWithin(t, max)
  {
  }

  lemma ChildWithin(up: Tree, t: Tree, max: nat)
    requires TextWithin(up, max) && TextWithin(t, max)
    ensures TextWithin(Add(up, Child(t)), max) && TextOf(Add(up, Child(t)).items) == TextOf(up.items)
  {
    hide TextOf, ItemsWithin;
    ItemsSnoc(up.items, Child(t));
    WithinSnoc(up.items, Child(t), max);
  }

  lemma TextCounts(z: Zipper, stack: seq<Open>, chunk: string, max: nat)
    requires Counted(z, stack, max) && stack != [] && stack[|stack| - 1].textLength + |chunk| <= max
    ensures var top := stack[|stack| - 1];
            Counted(Grow(z, Text(chunk)).value,
                    stack[..|stack| - 1] + [top.(textLength := top.textLength + |chunk|)], max)
  {
    hide TextOf, ItemsWithin;
    var k := |z.open| - 1;
    ItemsSnoc(z.open[k].items, Chars(chunk));
    WithinSnoc(z.open[k].items, Chars(chunk), max);
  }

  lemma EmitCounts(st: State, chunk: string, limits: Limits)
    requires InvText(st, limits.maxTextLength) && st.stack != [] && Reported(st) + |chunk| <= limits.maxTextLength
    ensures InvText(Emit(st, chunk), limits.maxTextLength)
  {
    hide Zip, Counted;
    if chunk != "" {
      assert Zip(st.events).value.open != [] by { CountedOpen(Zip(st.events).value, st.stack, limits.maxTextLength); }
      TextCounts(Zip(st.events).value, st.stack, chunk, limits.maxTextLength);
      ZipSnoc(st.events, Text(chunk));
    }
  }

  lemma CountedOpen(z: Zipper, stack: seq<Open>, max: nat)
    requires Counted(z, stack, max)
    ensures |z.open| == |stack|
  {
  }

  lemma ElementCounts(s: string, st: State, limits: Limits)
    requires s != "" && Inv(st, limits) && InvText(st, limits.maxTextLength) && ElementStep(s, st, limits).Got?
    ensures InvText(ElementStep(s, st, limits).value, limits.maxTextLength)
  {
    hide Zip, Counted, ParseName, ParseAttributes, Reported, NeverDeeper, Depth;
    var max := limits.maxTextLength;
    var name := ParseName(s[1..], limits);
    var tag := ParseAttributes(name.rest, [], Reported(st), limits).value;
    var p, n := name.value.prefix, name.value.local;
    var start := Start(p, n, tag.attributes);
    var z := Zip(st.events).value;
    ZipSnoc(st.events, start);
    StartCounts(z, st.stack, p, n, tag.attributes, max);
    if tag.empty {
      var inner := Grow(z, start).value;
      ZipSnoc(st.events + [start], End(p, n));
      EndCounts(inner, st.stack + [Open(p, n, 0)], p, n, max);
      assert (st.stack + [Open(p, n, 0)])[..|st.stack|] == st.stack;
    }
  }

  lemma EndStepCounts(s: string, st: State, limits: Limits)
    requires |s| >= 2 && Inv(st, limits) && InvText(st, limits.maxTextLength) && EndStep(s, st, limits).Got?
    ensures InvText(EndStep(s, st, limits).value, limits.maxTextLength)
  {
    hide Zip, Counted, ParseName, TrimLeft, NeverDeeper, Depth;
    var n := ParseName(s[2..], limits).value;
    ZipSnoc(st.events, End(n.prefix, n.local));
    EndCounts(Zip(st.events).value, st.stack, n.prefix, n.local, limits.maxTextLength);
  }

  /** A turn of the loop keeps every element within the limit, provided a run of data
      passes the guard. */
  lemma StepCounts(s: string, st: State, limits: Limits)
    requires s != "" && Inv(st, limits) && InvText(st, limits.maxTextLength) && Step(s, st, limits).Got?
    requires s[0] != '<' && st.stack != [] ==> StrictRun(s, "", Reported(st), limits)
    ensures InvText(Step(s, st, limits).value, limits.maxTextLength)
  {
    hide Inv, InvText, MiscStep, EndStep, ElementStep, ParseRun, Find, Emit, StrictRun, Reported;
    ReportedWithin(st, limits.maxTextLength);
    if s[0] != '<' {
      if st.stack != [] {
        StrictRunExact(s, "", Reported(st), limits);
        EmitCounts(st, ParseRun(s, "", Reported(st), limits).value, limits);
      }
    } else if "<![CDATA[" <= s {
      EmitCounts(st, s[9..][..Find(s[9..], "]]>").value], limits);
    } else if "<!" <= s || "<?" <= s {
    } else if "</" <= s {
      EndStepCounts(s, st, limits);
    } else {
      ElementCounts(s, st, limits);
    }
  }

  lemma ReportedWithin(st: State, max: nat)
    requires InvText(st, max)
    ensures Reported(st) <= max
  {
    hide Zip, TextOf;
    if st.stack != [] { assert TextWithin(Zip(st.events).value.open[|st.stack| - 1], max); }
  }

  // ---- beyond the limit once is beyond it for good ---------------------------------------------------

  /** Some element, open or closed, has more data than the limit. */
  predicate Over(z: Zipper, max: nat) {
    || (exists i :: 0 <= i < |z.open| && !TextWithin(z.open[i], max))
    || (z.root.Some? && !TextWithin(z.root.value, max))
  }

  lemma MoreIsOver(t: Tree, item: Item, max: nat)
    requires !TextWithin(t, max) || (item.Child? && !TextWithin(item.tree, max))
    ensures !TextWithin(Add(t, item), max)
  {
    hide TextOf, ItemsWithin;
    ItemsSnoc(t.items, item);
    WithinSnoc(t.items, item, max);
  }

  lemma GrowStaysOver(z: Zipper, e: Event, max: nat)
    requires Over(z, max) && Grow(z, e).Some? && (z.root.Some? ==> z.open == [])
    ensures Over(Grow(z, e).value, max)
  {
    hide TextWithin;
    var n := Grow(z, e).value;
    assert z.open != [];
    var i :| 0 <= i < |z.open| && !TextWithin(z.open[i], max);
    var k := |z.open| - 1;
    match e {
      case Start(_, _, _) => assert n.open[i] == z.open[i];
      case Text(chunk) =>
        if i == k { MoreIsOver(z.open[k], Chars(chunk), max); }
        assert !TextWithin(n.open[i], max);
      case End(p, _) =>
        var t := z.open[k].(endPrefix := p);
        SameText(z.open[k], p, max);
        if k == 0 {
          assert n.root == Some(t);
        } else if i >= k - 1 {
          MoreIsOver(z.open[k - 1], Child(t), max);
          assert !TextWithin(n.open[k - 1], max);
        } else {
          assert n.open[i] == z.open[i];
        }
    }
  }

  lemma {:induction false} ZipStaysOver(events: seq<Event>, all: seq<Event>, max: nat)
    requires events <= all && Zip(events).Some? && Over(Zip(events).value, max) && Zip(all).Some?
    ensures Over(Zip(all).value, max)
    decreases |all|
  {
    hide Over, Grow;
    if events == all {
    } else {
      var init := all[..|all| - 1];
      ZipStaysOver(events, init, max);
      ZipFlattens(init);
      GrowStaysOver(Zip(init).value, all[|all| - 1], max);
    }
  }

  lemma StepAppends(s: string, st: State, limits: Limits)
    requires s != "" && Step(s, st, limits).Got?
    ensures st.events <= Step(s, st, limits).value.events
  {
    hide ParseRun, ParseName, ParseAttributes, Find, TrimLeft;
  }

  lemma {:induction false} LoopAppends(s: string, st: State, limits: Limits)
    ensures st.events <= Loop(s, st, limits).events
    decreases |s|
  {
    hide Step;
    if s != "" && Step(s, st, limits).Got? {
      StepAppends(s, st, limits);
      LoopAppends(Step(s, st, limits).rest, Step(s, st, limits).value, limits);
    }
  }

  /** A run that does not pass the guard takes its element beyond the limit. */
  lemma EmitIsOver(st: State, chunk: string, max: nat)
    requires InvText(st, max) && st.stack != [] && chunk != "" && Reported(st) + |chunk| > max
    ensures Zip(Emit(st, chunk).events).Some? && Over(Zip(Emit(st, chunk).events).value, max)
  {
    hide Zip, TextOf, ItemsWithin;
    var z := Zip(st.events).value;
    var k := |z.open| - 1;
    ZipSnoc(st.events, Text(chunk));
    ItemsSnoc(z.open[k].items, Chars(chunk));
    var n := Grow(z, Text(chunk)).value;
    assert !TextWithin(n.open[k], max);
  }

  /** From here on: the limit is kept if and only if every run passes the guard. */
  lemma {:induction false} LoopExact(s: string, st: State, limits: Limits)
    requires Inv(st, limits) && InvText(st, limits.maxTextLength) && Loop(s, st, limits).error.None?
    ensures var z := Zip(Loop(s, st, limits).events);
            z.Some? && z.value.root.Some?
            && (TextWithin(z.value.root.value, limits.maxTextLength) <==> RunsFit(s, st, limits))
    decreases |s|
  {
    hide Step, Zip, TextWithin, StrictRun, NeverDeeper, Depth, Tracks;
    var max := limits.maxTextLength;
    LoopNests(s, st, limits);
    if s != "" {
      var r := Step(s, st, limits);
      StepKeeps(s, st, limits);
      if s[0] != '<' && st.stack != [] && !StrictRun(s, "", Reported(st), limits) {
        LooseStep(s, st, limits);
        LoopAppends(r.rest, r.value, limits);
        var all := Loop(s, st, limits).events;
        ZipStaysOver(r.value.events, all, max);
        ZipFlattens(all);
      } else {
        StepCounts(s, st, limits);
        LoopExact(r.rest, r.value, limits);
      }
    }
  }

  lemma LooseStep(s: string, st: State, limits: Limits)
    requires s != "" && s[0] != '<' && st.stack != [] && InvText(st, limits.maxTextLength) && Step(s, st, limits).Got?
    requires !StrictRun(s, "", Reported(st), limits)
    ensures var events := Step(s, st, limits).value.events;
            Zip(events).Some? && Over(Zip(events).value, limits.maxTextLength)
  {
    hide InvText, ParseRun, StrictRun, Zip, Over, Emit, Reported;
    ReportedWithin(st, limits.maxTextLength);
    StrictRunExact(s, "", Reported(st), limits);
    EmitIsOver(st, ParseRun(s, "", Reported(st), limits).value, limits.maxTextLength);
  }

  /** The text behind a byte order mark. */
  function Content(text: string): string {
    if BOM <= text then text[3..] else text
  }

  /** In a document that is accepted no element has more character data than the limit, if
      and only if every reference passes with the data before it counted. */
  lemma TextLimitExact(text: string, limits: Limits)
    requires Parse(text, limits).error.None?
    ensures var z := Zip(Parse(text, limits).events);
            z.Some? && z.value.root.Some?
            && (TextWithin(z.value.root.value, limits.maxTextLength) <==> RunsFit(Content(text), NOTHING_YET, limits))
  {
    hide Loop, Zip, Inv, TextWithin, RunsFit;
    InitiallyInv(limits);
    NothingCounted(limits.maxTextLength);
    LoopExact(Content(text), NOTHING_YET, limits);
  }

  lemma NothingCounted(max: nat)
    ensures InvText(State([], 0, false, []), max)
  {
  }

  // ---- documents without numeric references --------------------------------------------------------------

  predicate NoNumeric(s: string) {
    forall i :: 0 <= i < |s| - 1 ==> s[i] != '&' || s[i + 1] != '#'
  }

  lemma NoNumericBehind(rest: string, s: string)
    requires NoNumeric(s) && Suffix(rest, s)
    ensures NoNumeric(rest)
  {
    var k := |s| - |rest|;
    assert forall i :: 0 <= i < |rest| ==> rest[i] == s[k + i];
  }

  lemma ReferenceCounts(s: string, out: string, reported: nat, limits: Limits)
    requires s != "" && s[0] == '&' && NoNumeric(s) && Reference(s, out, reported, limits).Got?
    ensures reported + |Reference(s, out, reported, limits).value| <= limits.maxTextLength
  {
    hide Entity, Utf8, Numeric;
    var semi := IndexOf(s, ';', 0).value;
    assert s[1..semi][0] == s[1];
  }

  lemma {:induction false} NoNumericRun(s: string, out: string, reported: nat, limits: Limits)
    requires NoNumeric(s)
    ensures StrictRun(s, out, reported, limits)
    decreases |s|
  {
    hide Reference, Plain, NoNumeric;
    if s == "" || s[0] == '<' {
    } else if s[0] == '&' {
      var r := Reference(s, out, reported, limits);
      if r.Got? {
        ReferenceCounts(s, out, reported, limits);
        ReferenceLeaves(s, out, reported, limits);
        NoNumericBehind(r.rest, s);
        NoNumericRun(r.rest, r.value, reported, limits);
      }
    } else {
      var k := Plain(s, '<');
      SuffixOf(s, k);
      NoNumericBehind(s[k..], s);
      NoNumericRun(s[k..], out + s[..k], reported, limits);
    }
  }

  lemma {:induction false} NoNumericFits(s: string, st: State, limits: Limits)
    requires NoNumeric(s)
    ensures RunsFit(s, st, limits)
    decreases |s|
  {
    hide Step, NoNumeric, StrictRun;
    if s != "" && Step(s, st, limits).Got? {
      NoNumericRun(s, "", Reported(st), limits);
      StepLeaves(s, st, limits);
      NoNumericBehind(Step(s, st, limits).rest, s);
      NoNumericFits(Step(s, st, limits).rest, Step(s, st, limits).value, limits);
    }
  }

  /** In a document that is accepted and has no numeric reference, no element has more
      character data than the limit. */
  lemma ElementsWithin(text: string, limits: Limits)
    requires NoNumeric(text) && Parse(text, limits).error.None?
    ensures var z := Zip(Parse(text, limits).events);
            z.Some? && z.value.root.Some? && TextWithin(z.value.root.value, limits.maxTextLength)
  {
    hide Parse, NoNumeric, Zip, TextWithin, RunsFit;
    TextLimitExact(text, limits);
    if BOM <= text { SuffixOf(text, 3); } else { SuffixOf(text, 0); assert text[0..] == text; }
    NoNumericBehind(Content(text), text);
    NoNumericFits(Content(text), NOTHING_YET, limits);
  }

  // ---- a document beyond the limit ----------------------------------------------------------------------

  const FOUR: Limits := Limits(100, 1, 1, 0, 4, 1)

  const BEYOND: string := "<a>" + ("xxxx" + ("<!---->" + ("&#65;" + "</a>")))

  lemma NumericRun(rest: string)
    requires Markup(rest)
    ensures ParseRun("&#65;" + rest, "", 4, FOUR) == Got("A", rest)
  {
    var s := "&#65;" + rest;
    assert s[1..4] == "#65" && s[4] == ';' && s[5..] == rest;
    SemicolonAt(s, 4);
    NumberIs65();
    assert "" + "A" == "A";
    RunStops(rest, "A", 4, FOUR);
  }

  lemma CommentSkipped(rest: string, st: State, limits: Limits)
    ensures Step("<!---->" + rest, st, limits) == Got(st, rest)
  {
    var s := "<!---->" + rest;
    assert s[0] == '<' && s[2] == '-' && s[4..] == "-->" + rest;
    assert Find(s[4..], "-->") == Some(0) by { assert s[4..][..3] == "-->"; }
    assert s[4..][3..] == rest && s[4..][..0] == "";
  }

  /** Four characters are allowed; the element has five, and the document is accepted. */
  lemma BeyondIsAccepted()
    ensures var o := Parse(BEYOND, FOUR);
            o.error.None? && Zip(o.events).Some? && Zip(o.events).value.root.Some?
            && !TextWithin(Zip(o.events).value.root.value, FOUR.maxTextLength)
  {
    hide Loop, Step, Zip, TextWithin, Word;
    var t := Tree("", "a", [], [Chars("xxxx")] + [Chars("A")], "");
    BeyondSteps();
    BeyondWord(t);
    LoopEnds(State([], 1, true, Word(t)), FOUR);
    TreeOfWord(t);
    BeyondText(t);
  }

  lemma TextFour(rest: string, st: State)
    requires Markup(rest) && st.stack != [] && Reported(st) == 0
    ensures Step("xxxx" + rest, st, FOUR) == Got(Emit(st, "xxxx"), rest)
  {
    hide Step, Emit;
    EscapePlain("xxxx");
    CharsParse("xxxx", rest, st, FOUR);
  }

  lemma TextNumeric(rest: string, st: State)
    requires Markup(rest) && st.stack != [] && Reported(st) == 4
    ensures Step("&#65;" + rest, st, FOUR) == Got(Emit(st, "A"), rest)
  {
    hide ParseRun, Emit, Reported;
    NumericRun(rest);
    assert ("&#65;" + rest)[0] == '&';
  }

  lemma TagsAre()
    ensures StartTag(Tree("", "a", [], [], "")) == "<a>" && EndTag("", "a") == "</a>" && Nameable("", "a", FOUR)
  {
  }

  const NUMERIC: string := "&#65;" + "</a>"

  const COMMENT: string := "<!---->" + NUMERIC

  function Inside(textLength: nat, events: seq<Event>): State {
    State([Open("", "a", textLength)], 1, true, events)
  }

  lemma BeyondStarts()
    ensures Loop(BEYOND, NOTHING_YET, FOUR) == Loop("xxxx" + COMMENT, Inside(0, [Start("", "a", [])]), FOUR)
  {
    hide Loop, Step, StartTag, EndTag, Nameable;
    TagsAre();
    StartParses(Tree("", "a", [], [], ""), "xxxx" + COMMENT, NOTHING_YET, FOUR);
    LoopStep(BEYOND, NOTHING_YET, FOUR);
    var o, st := Opened(NOTHING_YET.(elements := 1), Name("", "a"), Tag([], false)), Inside(0, [Start("", "a", [])]);
    assert o.stack == st.stack && o.events == st.events && o == st;
  }

  lemma EmitInside(n: nat, events: seq<Event>, chunk: string)
    requires chunk != ""
    ensures Emit(Inside(n, events), chunk) == Inside(n + |chunk|, events + [Text(chunk)])
  {
  }

  lemma BeyondText4(st: State, st': State)
    requires st == Inside(0, [Start("", "a", [])]) && st' == Inside(4, [Start("", "a", [])] + [Text("xxxx")])
    ensures Loop("xxxx" + COMMENT, st, FOUR) == Loop(NUMERIC, st', FOUR)
  {
    hide Loop, Step, Emit;
    EmitInside(0, [Start("", "a", [])], "xxxx");
    TextFour(COMMENT, st);
    LoopStep("xxxx" + COMMENT, st, FOUR);
    CommentSkipped(NUMERIC, st', FOUR);
    LoopStep(COMMENT, st', FOUR);
  }

  lemma BeyondEnds(events: seq<Event>)
    ensures Loop(NUMERIC, Inside(4, events), FOUR)
            == Loop("", State([], 1, true, events + [Text("A")] + [End("", "a")]), FOUR)
  {
    hide Loop, Step, Emit, EndTag, Nameable;
    TagsAre();
    EmitInside(4, events, "A");
    TextNumeric("</a>", Inside(4, events));
    LoopStep(NUMERIC, Inside(4, events), FOUR);
    var st := Inside(5, events + [Text("A")]);
    EndParses("", "a", "", st, FOUR);
    assert EndTag("", "a") + "" == "</a>" && st.stack[..0] == [];
    LoopStep("</a>", st, FOUR);
  }

  lemma BeyondSteps()
    ensures Parse(BEYOND, FOUR) == Loop("", State([], 1, true, BEYOND_EVENTS), FOUR)
  {
    hide Loop;
    var events := [Start("", "a", [])] + [Text("xxxx")];
    BeyondStarts();
    BeyondText4(Inside(0, [Start("", "a", [])]), Inside(4, events));
    BeyondEnds(events);
    assert BEYOND[0] == '<' && |BEYOND| <= 100;
  }

  const BEYOND_EVENTS: seq<Event> := [Start("", "a", [])] + [Text("xxxx")] + [Text("A")] + [End("", "a")]

  lemma BeyondWord(t: Tree)
    requires t == Tree("", "a", [], [Chars("xxxx")] + [Chars("A")], "")
    ensures Word(t) == BEYOND_EVENTS
  {
    hide Words;
    AddItem([Chars("xxxx")], Chars("A"));
    AddItem([], Chars("xxxx"));
    NoItems();
    assert [] + [Chars("xxxx")] == [Chars("xxxx")] && Words([Chars("xxxx")]) == [Text("xxxx")];
  }

  lemma BeyondText(t: Tree)
    requires t.items == [Chars("xxxx")] + [Chars("A")]
    ensures !TextWithin(t, 4)
  {
    hide TextOf;
    ItemsSnoc([Chars("xxxx")], Chars("A"));
    ItemsSnoc([], Chars("xxxx"));
    NoText();
    assert [] + [Chars("xxxx")] == [Chars("xxxx")];
  }
}
