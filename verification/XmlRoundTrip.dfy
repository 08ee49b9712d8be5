/** The parser inverts the printer: for every tree within the limits, what is printed is
    accepted and reported as the word of that tree. */
module XmlRoundTrip {
  import opened Prelude
  import opened Text
  import opened XmlEvents
  import opened XmlSyntax
  import opened XmlPrint

  // ---- printing -------------------------------------------------------------------------------

  function StartTag(t: Tree): string {
    "<" + Written(t.prefix, t.name) + PrintAttributes(t.attributes) + ">"
  }

  function EndTag(prefix: string, name: string): string {
    "</" + Written(prefix, name) + ">"
  }

  function Print(t: Tree): string {
    StartTag(t) + PrintItems(t.items) + EndTag(t.endPrefix, t.name)
  }

  function PrintItem(item: Item): string {
    match item case Chars(chunk) => Escape(chunk) case Child(t) => Print(t)
  }

  function PrintItems(items: seq<Item>): string {
    if items == [] then "" else PrintItems(items[..|items| - 1]) + PrintItem(items[|items| - 1])
  }

  // ---- what the parser admits -----------------------------------------------------------------

  function Count(t: Tree): nat {
    1 + Counts(t.items)
  }

  function CountItem(item: Item): nat {
    match item case Chars(_) => 0 case Child(t) => Count(t)
  }

  function Counts(items: seq<Item>): nat {
    if items == [] then 0 else Counts(items[..|items| - 1]) + CountItem(items[|items| - 1])
  }

  /** The tree can stand where so many elements are open and so much character data was
      reported for the innermost of them. */
  predicate TreeFits(t: Tree, depth: nat, reported: nat, limits: Limits)
    decreases t
  {
    && depth < limits.maxDepth
    && Nameable(t.prefix, t.name, limits) && Nameable(t.endPrefix, t.name, limits)
    && AttributesFit(t.attributes, reported, limits) && |t.attributes| <= limits.maxAttributes
    && ItemsFit(t.items, depth + 1, limits)
  }

  predicate ItemFits(item: Item, depth: nat, reported: nat, limits: Limits)
    decreases item
  {
    match item
    case Chars(chunk) => chunk != "" && reported + |chunk| <= limits.maxTextLength
    case Child(t) => TreeFits(t, depth, reported, limits)
  }

  /** Character data is not empty, and two pieces of it are not next to each other. */
  predicate ItemsFit(items: seq<Item>, depth: nat, limits: Limits)
    decreases items
  {
    items == [] ||
    var init, last := items[..|items| - 1], items[|items| - 1];
    && ItemsFit(init, depth, limits)
    && ItemFits(last, depth, |TextOf(init)|, limits)
    && (last.Chars? ==> init == [] || init[|init| - 1].Child?)
  }

  // ---- one step each --------------------------------------------------------------------------

  lemma StartParses(t: Tree, rest: string, st: State, limits: Limits)
    requires Nameable(t.prefix, t.name, limits)
    requires AttributesFit(t.attributes, Reported(st), limits) && |t.attributes| <= limits.maxAttributes
    requires st.elements < limits.maxElements && |st.stack| < limits.maxDepth && !(st.stack == [] && st.hadRoot)
    ensures Step(StartTag(t) + rest, st, limits)
            == Got(Opened(st.(elements := st.elements + 1), Name(t.prefix, t.name), Tag(t.attributes, false)), rest)
  {
    hide ParseName, ParseAttributes, PrintAttributes, Opened, Reported, Written, Nameable, AttributesFit;
    var s := StartTag(t) + rest;
    var full, after := Written(t.prefix, t.name), PrintAttributes(t.attributes) + ">" + rest;
    assert s[1..] == full + after;
    FirstOfName(t.prefix, t.name, limits);
    assert s[0] == '<' && s[1] == full[0];
    AfterName(t.attributes, rest);
    NameParses(t.prefix, t.name, after, limits);
    AttributesParse(t.attributes, rest, [], Reported(st), limits);
    assert [] + t.attributes == t.attributes;
  }

  lemma FirstOfName(prefix: string, name: string, limits: Limits)
    requires Nameable(prefix, name, limits)
    ensures var full := Written(prefix, name); full != "" && IsNameStart(full[0])
  {
    WrittenChars(prefix, name);
  }

  lemma AfterName(list: Attributes, rest: string)
    ensures EndsName(PrintAttributes(list) + ">" + rest)
  {
    hide PrintAttribute;
  }

  lemma EndParses(prefix: string, name: string, rest: string, st: State, limits: Limits)
    requires Nameable(prefix, name, limits) && st.stack != [] && st.stack[|st.stack| - 1].name == name
    ensures Step(EndTag(prefix, name) + rest, st, limits)
            == Got(st.(stack := st.stack[..|st.stack| - 1], events := st.events + [End(prefix, name)]), rest)
  {
    hide ParseName, Written, Nameable, TrimLeft;
    var s, full, after := EndTag(prefix, name) + rest, Written(prefix, name), ">" + rest;
    assert s[0] == '<' && s[1] == '/' && s[2..] == full + after;
    NameParses(prefix, name, after, limits);
    NothingToTrim(after);
    assert after[1..] == rest;
  }

  lemma CharsParse(chunk: string, rest: string, st: State, limits: Limits)
    requires chunk != "" && rest != "" && rest[0] == '<' && st.stack != []
    requires Reported(st) + |chunk| <= limits.maxTextLength
    ensures Step(Escape(chunk) + rest, st, limits) == Got(Emit(st, chunk), rest)
  {
    hide ParseRun, Emit, Reported;
    var s := Escape(chunk) + rest;
    assert s[0] == EscapeChar(chunk[0])[0] && s[0] != '<';
    RunEscaped(chunk, rest, "", Reported(st), limits);
    RunStops(rest, "" + chunk, Reported(st), limits);
    assert "" + chunk == chunk;
  }

  lemma RunStops(rest: string, out: string, reported: nat, limits: Limits)
    requires rest != "" && rest[0] == '<'
    ensures ParseRun(rest, out, reported, limits) == Got(out, rest)
  {
  }

  // ---- whole trees ------------------------------------------------------------------------------

  /** The state behind an element: nothing but the events and the counts has changed. */
  function Behind(st: State, t: Tree): State {
    State(st.stack, st.elements + Count(t), st.hadRoot || st.stack == [], st.events + Word(t))
  }

  /** The state behind the items of the innermost element, from its start tag on. */
  function Within(st: State, items: seq<Item>): State
    requires st.stack != []
  {
    var top := st.stack[|st.stack| - 1];
    State(st.stack[..|st.stack| - 1] + [top.(textLength := |TextOf(items)|)], st.elements + Counts(items),
          st.hadRoot, st.events + Words(items))
  }

  lemma LoopStep(s: string, st: State, limits: Limits)
    requires s != "" && Step(s, st, limits).Got?
    ensures Loop(s, st, limits) == Loop(Step(s, st, limits).rest, Step(s, st, limits).value, limits)
  {
  }

  lemma EmitIsWithin(st: State, init: seq<Item>, chunk: string)
    requires st.stack != [] && chunk != ""
    ensures Emit(Within(st, init), chunk) == Within(st, init + [Chars(chunk)])
  {
    hide Words, TextOf, Counts;
    AddItem(init, Chars(chunk));
    ItemsSnoc(init, Chars(chunk));
    CountsSnoc(init, Chars(chunk));
    Assoc(st.events, Words(init), [Text(chunk)]);
  }

  lemma ChildIsWithin(st: State, init: seq<Item>, t: Tree)
    requires st.stack != [] && st.hadRoot
    ensures Behind(Within(st, init), t) == Within(st, init + [Child(t)])
  {
    hide Words, TextOf, Counts, Count, Word;
    AddItem(init, Child(t));
    ItemsSnoc(init, Child(t));
    CountsSnoc(init, Child(t));
    Assoc(st.events, Words(init), Word(t));
    assert TextOf(init) + "" == TextOf(init);
  }

  lemma CountsSnoc(items: seq<Item>, item: Item)
    ensures Counts(items + [item]) == Counts(items) + CountItem(item)
  {
    assert (items + [item])[..|items|] == items;
  }

  lemma PrintSnoc(items: seq<Item>, item: Item)
    ensures PrintItems(items + [item]) == PrintItems(items) + PrintItem(item)
  {
    assert (items + [item])[..|items|] == items;
  }

  lemma NothingWithin(st: State)
    requires st.stack != [] && Reported(st) == 0
    ensures Within(st, []) == st
  {
    assert st.events + [] == st.events;
  }

  lemma WithinReported(st: State, items: seq<Item>)
    requires st.stack != []
    ensures var w := Within(st, items);
            && |w.stack| == |st.stack| && Reported(w) == |TextOf(items)| && w.hadRoot == st.hadRoot
            && w.elements == st.elements + Counts(items)
            && w.stack[..|w.stack| - 1] == st.stack[..|st.stack| - 1]
            && w.stack[|w.stack| - 1].name == st.stack[|st.stack| - 1].name
  {
    hide TextOf, Counts, Words;
  }

  predicate Markup(rest: string) {
    rest != "" && rest[0] == '<'
  }

  lemma {:induction false} ItemsParse(items: seq<Item>, rest: string, st: State, limits: Limits)
    requires st.stack != [] && st.hadRoot && Reported(st) == 0
    requires items != [] && items[|items| - 1].Chars? ==> Markup(rest)
    requires ItemsFit(items, |st.stack|, limits) && st.elements + Counts(items) <= limits.maxElements
    ensures Loop(PrintItems(items) + rest, st, limits) == Loop(rest, Within(st, items), limits)
    decreases items
  {
    hide Loop, TreeFits, Within, Print, Count, Escape, Step, Emit, Reported;
    if items == [] {
      assert PrintItems(items) + rest == rest;
      NothingWithin(st);
    } else {
      var init, last := items[..|items| - 1], items[|items| - 1];
      assert items == init + [last];
      PrintSnoc(init, last);
      CountsSnoc(init, last);
      Assoc(PrintItems(init), PrintItem(last), rest);
      if last.Child? { PrintIsMarkup(last.tree, rest); }
      ItemsParse(init, PrintItem(last) + rest, st, limits);
      ItemParses(init, last, rest, st, limits);
    }
  }

  lemma ItemParses(init: seq<Item>, last: Item, rest: string, st: State, limits: Limits)
    requires st.stack != [] && st.hadRoot
    requires last.Chars? ==> Markup(rest)
    requires ItemFits(last, |st.stack|, |TextOf(init)|, limits)
    requires st.elements + Counts(init) + CountItem(last) <= limits.maxElements
    ensures Loop(PrintItem(last) + rest, Within(st, init), limits) == Loop(rest, Within(st, init + [last]), limits)
    decreases last
  {
    hide Loop, TreeFits, Within, Print, Count, Escape, Step, Emit, Reported;
    var w := Within(st, init);
    WithinReported(st, init);
    match last
    case Child(t) =>
      TreeParses(t, rest, w, limits);
      ChildIsWithin(st, init, t);
    case Chars(chunk) =>
      CharsParse(chunk, rest, w, limits);
      LoopStep(Escape(chunk) + rest, w, limits);
      EmitIsWithin(st, init, chunk);
  }

  lemma PrintIsMarkup(t: Tree, rest: string)
    ensures Markup(Print(t) + rest)
  {
  }

  lemma OpenedIs(st: State, t: Tree)
    ensures var o := Opened(st.(elements := st.elements + 1), Name(t.prefix, t.name), Tag(t.attributes, false));
            && o.stack == st.stack + [Open(t.prefix, t.name, 0)] && Reported(o) == 0
            && o.elements == st.elements + 1 && o.events == st.events + [Start(t.prefix, t.name, t.attributes)]
  {
  }

  lemma ClosedIs(st: State, o: State, t: Tree)
    requires o.stack == st.stack + [Open(t.prefix, t.name, 0)] && o.elements == st.elements + 1
    requires o.hadRoot == (st.hadRoot || st.stack == [])
    requires o.events == st.events + [Start(t.prefix, t.name, t.attributes)]
    ensures var w := Within(o, t.items);
            w.(stack := w.stack[..|w.stack| - 1], events := w.events + [End(t.endPrefix, t.name)]) == Behind(st, t)
  {
    hide TextOf, Counts, Words;
    var start, end := [Start(t.prefix, t.name, t.attributes)], [End(t.endPrefix, t.name)];
    Assoc(st.events, start, Words(t.items));
    Assoc(st.events, start + Words(t.items), end);
    assert (st.stack + [Open(t.prefix, t.name, 0)])[..|st.stack|] == st.stack;
  }

  lemma {:induction false} TreeParses(t: Tree, rest: string, st: State, limits: Limits)
    requires TreeFits(t, |st.stack|, Reported(st), limits) && st.elements + Count(t) <= limits.maxElements
    requires if st.stack == [] then !st.hadRoot else st.hadRoot
    ensures Loop(Print(t) + rest, st, limits) == Loop(rest, Behind(st, t), limits)
    decreases t
  {
    hide Loop, Within, Escape, Step, Reported, StartTag, EndTag, ItemsFit, Nameable, AttributesFit, Opened, Behind, Counts,
         PrintItems;
    var o := Opened(st.(elements := st.elements + 1), Name(t.prefix, t.name), Tag(t.attributes, false));
    var close := EndTag(t.endPrefix, t.name) + rest;
    var inside := PrintItems(t.items) + close;
    assert Print(t) + rest == StartTag(t) + inside by {
      Assoc(StartTag(t), PrintItems(t.items), EndTag(t.endPrefix, t.name));
      Assoc(StartTag(t), PrintItems(t.items) + EndTag(t.endPrefix, t.name), rest);
      Assoc(PrintItems(t.items), EndTag(t.endPrefix, t.name), rest);
    }
    TagIsMarkup(t, inside);
    StartParses(t, inside, st, limits);
    LoopStep(StartTag(t) + inside, st, limits);
    OpenedIs(st, t);
    OpenedRoot(st, t);
    EndIsMarkup(t, rest);
    ItemsParse(t.items, close, o, limits);
    var w := Within(o, t.items);
    WithinReported(o, t.items);
    EndParses(t.endPrefix, t.name, rest, w, limits);
    LoopStep(close, w, limits);
    ClosedIs(st, o, t);
  }

  lemma OpenedRoot(st: State, t: Tree)
    ensures Opened(st.(elements := st.elements + 1), Name(t.prefix, t.name), Tag(t.attributes, false)).hadRoot
            == (st.hadRoot || st.stack == [])
  {
  }

  lemma TagIsMarkup(t: Tree, rest: string)
    ensures Markup(StartTag(t) + rest)
  {
  }

  lemma EndIsMarkup(t: Tree, rest: string)
    ensures Markup(EndTag(t.endPrefix, t.name) + rest)
  {
  }

  // ---- whole documents ---------------------------------------------------------------------------

  const NOTHING_YET: State := State([], 0, false, [])

  lemma SpaceSkipped(c: char, rest: string, st: State, limits: Limits)
    requires IsSpace(c) && st.stack == []
    ensures Loop([c] + rest, st, limits) == Loop(rest, st, limits)
  {
    hide Loop;
    assert ([c] + rest)[1..] == rest;
    LoopStep([c] + rest, st, limits);
  }

  lemma {:induction false} FindFirst(before: string, token: string, rest: string)
    requires token != "" && token[0] !in before
    ensures Find(before + token + rest, token) == Some(|before|)
    decreases |before|
  {
    var s := before + token + rest;
    if before == "" {
      assert s[..|token|] == token;
    } else {
      assert s[0] == before[0];
      assert s[1..] == before[1..] + token + rest;
      FindFirst(before[1..], token, rest);
    }
  }

  /** A processing instruction with no question mark inside. */
  lemma InstructionSkipped(body: string, rest: string, st: State, limits: Limits)
    requires '?' !in body
    ensures Loop("<?" + body + "?>" + rest, st, limits) == Loop(rest, st, limits)
  {
    hide Loop, Find;
    var s := "<?" + body + "?>" + rest;
    assert s[0] == '<' && s[1] == '?' && s[2..] == body + "?>" + rest;
    FindFirst(body, "?>", rest);
    assert (body + "?>" + rest)[|body| + 2..] == rest;
    LoopStep(s, st, limits);
  }

  /** A document within the limits: all the bounds that the parser checks. */
  predicate Admitted(t: Tree, limits: Limits) {
    TreeFits(t, 0, 0, limits) && Count(t) <= limits.maxElements
  }

  lemma RootParses(t: Tree, rest: string, limits: Limits)
    requires Admitted(t, limits)
    ensures Loop(Print(t) + rest, NOTHING_YET, limits) == Loop(rest, State([], Count(t), true, Word(t)), limits)
  {
    hide Loop, TreeFits, Count, Word, Print;
    TreeParses(t, rest, NOTHING_YET, limits);
    assert [] + Word(t) == Word(t);
  }

  lemma LoopEnds(st: State, limits: Limits)
    requires st.stack == [] && st.hadRoot
    ensures Loop("", st, limits) == Outcome(None, st.events)
  {
  }

  /** Reading what was printed gives the word of the tree, and so the tree itself. */
  lemma PrintParses(t: Tree, limits: Limits)
    requires Admitted(t, limits) && |Print(t)| <= limits.maxDocumentSize
    ensures Parse(Print(t), limits) == Outcome(None, Word(t))
    ensures Zip(Parse(Print(t), limits).events) == Some(Zipper(Some(t), []))
  {
    hide Loop, TreeFits, Count, Word, Print, Zip;
    RootParses(t, "", limits);
    LoopEnds(State([], Count(t), true, Word(t)), limits);
    assert Print(t) + "" == Print(t);
    PrintIsMarkup(t, "");
    TreeOfWord(t);
  }
}
