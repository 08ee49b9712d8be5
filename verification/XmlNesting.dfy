/** What the parser reports is nested, whatever the input. */
module XmlNesting {
  import opened Prelude
  import opened Text
  import opened XmlEvents
  import opened XmlSyntax

  /** How many elements a word leaves open. */
  function Depth(events: seq<Event>): int {
    if events == [] then 0
    else
      var last := events[|events| - 1];
      Depth(events[..|events| - 1]) + if last.Start? then 1 else if last.End? then -1 else 0
  }

  ghost predicate NeverDeeper(events: seq<Event>, max: nat) {
    forall k :: 0 <= k <= |events| ==> Depth(events[..k]) <= max
  }

  lemma DepthSnoc(events: seq<Event>, e: Event)
    ensures Depth(events + [e]) == Depth(events) + if e.Start? then 1 else if e.End? then -1 else 0
  {
    assert (events + [e])[..|events|] == events;
  }

  lemma DeeperSnoc(events: seq<Event>, e: Event, max: nat)
    requires NeverDeeper(events, max) && Depth(events + [e]) <= max
    ensures NeverDeeper(events + [e], max)
  {
    hide Depth;
    var all := events + [e];
    forall k | 0 <= k <= |all| ensures Depth(all[..k]) <= max {
      if k <= |events| { assert all[..k] == events[..k]; } else { assert all[..k] == all; }
    }
  }

  // ---- the parser's stack is that of the word ------------------------------------------------

  predicate SameNames(open: seq<Tree>, stack: seq<Open>) {
    |open| == |stack| && forall i :: 0 <= i < |open| ==> open[i].name == stack[i].name
  }

  /** An event keeps the word nested and takes the stack along. */
  predicate Tracks(events: seq<Event>, stack: seq<Open>, hadRoot: bool) {
    && Zip(events).Some?
    && var z := Zip(events).value;
       && SameNames(z.open, stack)
       && (z.root.Some? ==> z.open == [])
       && hadRoot == (z.root.Some? || z.open != [])
  }

  ghost predicate Inv(st: State, limits: Limits) {
    && Tracks(st.events, st.stack, st.hadRoot)
    && |st.stack| <= limits.maxDepth
    && Depth(st.events) == |st.stack|
    && NeverDeeper(st.events, limits.maxDepth)
  }

  lemma InitiallyInv(limits: Limits)
    ensures Inv(State([], 0, false, []), limits)
  {
    var none: seq<Event> := [];
    assert forall k :: 0 <= k <= |none| ==> none[..k] == none;
  }

  lemma TextTracks(events: seq<Event>, stack: seq<Open>, chunk: string, top: Open)
    requires Tracks(events, stack, true) && stack != [] && top.name == stack[|stack| - 1].name
    ensures Tracks(events + [Text(chunk)], stack[..|stack| - 1] + [top], true)
  {
    hide Zip;
    ZipSnoc(events, Text(chunk));
  }

  lemma StartTracks(events: seq<Event>, stack: seq<Open>, hadRoot: bool, name: Name, attributes: Attributes)
    requires Tracks(events, stack, hadRoot) && (stack == [] ==> !hadRoot)
    ensures Tracks(events + [Start(name.prefix, name.local, attributes)], stack + [Open(name.prefix, name.local, 0)], true)
  {
    hide Zip;
    ZipSnoc(events, Start(name.prefix, name.local, attributes));
  }

  lemma EndTracks(events: seq<Event>, stack: seq<Open>, name: Name)
    requires Tracks(events, stack, true) && stack != [] && stack[|stack| - 1].name == name.local
    ensures Tracks(events + [End(name.prefix, name.local)], stack[..|stack| - 1], true)
  {
    hide Zip;
    ZipSnoc(events, End(name.prefix, name.local));
  }

  lemma EmitKeeps(st: State, chunk: string, limits: Limits)
    requires Inv(st, limits) && st.stack != []
    ensures Inv(Emit(st, chunk), limits)
  {
    hide Depth, NeverDeeper, Tracks;
    if chunk != "" {
      var top := st.stack[|st.stack| - 1];
      assert st.hadRoot by { RootWasSeen(st.events, st.stack, st.hadRoot); }
      TextTracks(st.events, st.stack, chunk, top.(textLength := top.textLength + |chunk|));
      DepthSnoc(st.events, Text(chunk));
      DeeperSnoc(st.events, Text(chunk), limits.maxDepth);
    }
  }

  lemma RootWasSeen(events: seq<Event>, stack: seq<Open>, hadRoot: bool)
    requires Tracks(events, stack, hadRoot) && stack != []
    ensures hadRoot
  {
  }

  lemma EndKeeps(s: string, st: State, limits: Limits)
    requires |s| >= 2 && Inv(st, limits) && EndStep(s, st, limits).Got?
    ensures Inv(EndStep(s, st, limits).value, limits)
  {
    hide Depth, NeverDeeper, Tracks, ParseName;
    var name := ParseName(s[2..], limits).value;
    RootWasSeen(st.events, st.stack, st.hadRoot);
    EndTracks(st.events, st.stack, name);
    DepthSnoc(st.events, End(name.prefix, name.local));
    DeeperSnoc(st.events, End(name.prefix, name.local), limits.maxDepth);
  }

  lemma OpenedKeeps(st: State, name: Name, tag: Tag, limits: Limits)
    requires Inv(st, limits) && |st.stack| < limits.maxDepth && (st.stack == [] ==> !st.hadRoot)
    ensures Inv(Opened(st, name, tag), limits)
  {
    hide Depth, NeverDeeper, Tracks;
    var start := Start(name.prefix, name.local, tag.attributes);
    var within, stack := st.events + [start], st.stack + [Open(name.prefix, name.local, 0)];
    if st.stack != [] { RootWasSeen(st.events, st.stack, st.hadRoot); }
    StartTracks(st.events, st.stack, st.hadRoot, name, tag.attributes);
    DepthSnoc(st.events, start);
    DeeperSnoc(st.events, start, limits.maxDepth);
    if tag.empty {
      var end := End(name.prefix, name.local);
      EndTracks(within, stack, name);
      assert stack[..|stack| - 1] == st.stack;
      DepthSnoc(within, end);
      DeeperSnoc(within, end, limits.maxDepth);
    }
  }

  lemma ElementKeeps(s: string, st: State, limits: Limits)
    requires s != "" && Inv(st, limits) && ElementStep(s, st, limits).Got?
    ensures Inv(ElementStep(s, st, limits).value, limits)
  {
    hide Tracks, NeverDeeper, Depth, ParseName, ParseAttributes, Opened;
    var name := ParseName(s[1..], limits);
    var tag := ParseAttributes(name.rest, [], Reported(st), limits);
    OpenedKeeps(st.(elements := st.elements + 1), name.value, tag.value, limits);
  }

  lemma CdataKeeps(s: string, st: State, limits: Limits)
    requires |s| >= 9 && st.stack != [] && Inv(st, limits) && CdataStep(s, st, limits).Got?
    ensures Inv(CdataStep(s, st, limits).value, limits)
  {
    hide Inv, Find;
    EmitKeeps(st, s[9..][..Find(s[9..], "]]>").value], limits);
  }

  lemma TextKeeps(s: string, st: State, limits: Limits)
    requires s != "" && s[0] != '<' && st.stack != [] && Inv(st, limits) && TextStep(s, st, limits).Got?
    ensures Inv(TextStep(s, st, limits).value, limits)
  {
    hide Inv, ParseRun;
    EmitKeeps(st, ParseRun(s, "", Reported(st), limits).value, limits);
  }

  lemma StepKeeps(s: string, st: State, limits: Limits)
    requires s != "" && Inv(st, limits) && Step(s, st, limits).Got?
    ensures Inv(Step(s, st, limits).value, limits)
  {
    hide Inv, TextStep, CdataStep, MiscStep, EndStep, ElementStep;
    if s[0] != '<' {
      if st.stack != [] { TextKeeps(s, st, limits); }
    } else if "<![CDATA[" <= s {
      CdataKeeps(s, st, limits);
    } else if "<!" <= s || "<?" <= s {
    } else if "</" <= s {
      EndKeeps(s, st, limits);
    } else {
      ElementKeeps(s, st, limits);
    }
  }

  lemma {:induction false} LoopNests(s: string, st: State, limits: Limits)
    requires Inv(st, limits)
    ensures var o := Loop(s, st, limits);
            && Zip(o.events).Some? && NeverDeeper(o.events, limits.maxDepth)
            && (o.error.None? ==> Zip(o.events).value.root.Some?)
    decreases |s|
  {
    hide Step, Depth, NeverDeeper, Zip;
    if s != "" {
      var r := Step(s, st, limits);
      if r.Got? {
        StepKeeps(s, st, limits);
        LoopNests(r.rest, r.value, limits);
      }
    }
  }

  /** What the zipper makes of the events of any input. */
  lemma ParseNests(text: string, limits: Limits)
    ensures var o := Parse(text, limits);
            && Zip(o.events).Some? && NeverDeeper(o.events, limits.maxDepth)
            && (o.error.None? ==> Zip(o.events).value.root.Some?)
  {
    hide Loop, Zip, Inv, NeverDeeper;
    InitiallyInv(limits);
    if |text| > limits.maxDocumentSize {
      LoopNests("", State([], 0, false, []), limits);
      NothingLeft(limits);
    } else {
      LoopNests(if BOM <= text then text[3..] else text, State([], 0, false, []), limits);
    }
  }

  lemma NothingLeft(limits: Limits)
    ensures Loop("", State([], 0, false, []), limits).events == []
  {
  }

  /** A document that is accepted is the word of its one root. */
  lemma Accepted(text: string, limits: Limits)
    requires Parse(text, limits).error.None?
    ensures var events := Parse(text, limits).events;
            Zip(events).Some? && Zip(events).value.root.Some? && events == Word(Zip(events).value.root.value)
  {
    hide Parse, Zip, Word;
    ParseNests(text, limits);
    ZipIsPrefix(Parse(text, limits).events);
  }

  /** For every input the events are a prefix of a properly nested word, matched by local
      name, that is never deeper than the limit; for a document that is accepted they are
      the whole word of one root. */
  lemma EveryInput(text: string, limits: Limits)
    ensures var o := Parse(text, limits);
            && NestedPrefix(o.events) && NeverDeeper(o.events, limits.maxDepth)
            && (o.error.None? ==> exists t :: o.events == Word(t))
  {
    hide Parse, Zip, NestedPrefix, NeverDeeper, Word;
    ParseNests(text, limits);
    ZipIsPrefix(Parse(text, limits).events);
  }

  // ---- declarations ---------------------------------------------------------------------------

  /** A document type, entity or other declaration. */
  predicate AtDeclaration(s: string) {
    "<!" <= s && !("<!--" <= s) && !("<![CDATA[" <= s)
  }

  lemma ReferenceSupported(s: string, out: string, reported: nat, limits: Limits)
    requires s != "" && s[0] == '&'
    ensures Reference(s, out, reported, limits) != Fail(Unsupported)
  {
  }

  lemma {:induction false} ValueSupported(s: string, quote: char, out: string, reported: nat, limits: Limits)
    ensures ParseValue(s, quote, out, reported, limits) != Fail(Unsupported)
    decreases |s|
  {
    hide Reference;
    if s != "" && s[0] != quote && s[0] != '<' {
      if s[0] == '&' {
        ReferenceSupported(s, out, reported, limits);
        var r := Reference(s, out, reported, limits);
        if r.Got? { ValueSupported(r.rest, quote, r.value, reported, limits); }
      } else {
        var k := Plain(s, quote);
        ValueSupported(s[k..], quote, out + s[..k], reported, limits);
      }
    }
  }

  lemma {:induction false} RunSupported(s: string, out: string, reported: nat, limits: Limits)
    ensures ParseRun(s, out, reported, limits) != Fail(Unsupported)
    decreases |s|
  {
    hide Reference;
    if s != "" && s[0] != '<' {
      if s[0] == '&' {
        ReferenceSupported(s, out, reported, limits);
        var r := Reference(s, out, reported, limits);
        if r.Got? { RunSupported(r.rest, r.value, reported, limits); }
      } else {
        var k := Plain(s, '<');
        RunSupported(s[k..], out + s[..k], reported, limits);
      }
    }
  }

  lemma NameSupported(s: string, limits: Limits)
    ensures ParseName(s, limits) != Fail(Unsupported)
  {
  }

  lemma AttributeSupported(s: string, reported: nat, limits: Limits)
    ensures ParseAttribute(s, reported, limits) != Fail(Unsupported)
  {
    hide ParseName, ParseValue;
    NameSupported(s, limits);
    var n := ParseName(s, limits);
    if n.Got? {
      var e := ParseEquals(n.rest);
      if e.Got? { ValueSupported(e.rest, e.value, "", reported, limits); }
    }
  }

  lemma {:induction false} AttributesSupported(s: string, attributes: seq<(string, string)>, reported: nat, limits: Limits)
    ensures ParseAttributes(s, attributes, reported, limits) != Fail(Unsupported)
    decreases |s|
  {
    hide ParseAttribute, TrimLeft;
    var t := TrimLeft(s);
    TrimLeftSplits(s);
    if t != "" {
      AttributeSupported(t, reported, limits);
      var r := ParseAttribute(t, reported, limits);
      if r.Got? { AttributesSupported(r.rest, attributes + [r.value], reported, limits); }
    }
  }

  /** A turn refuses what it finds as unsupported if and only if it stands at a declaration,
      and then nothing more is reported. */
  lemma UnsupportedExactly(s: string, st: State, limits: Limits)
    requires s != ""
    ensures Step(s, st, limits) == Fail(Unsupported) <==> AtDeclaration(s)
    ensures AtDeclaration(s) ==> Loop(s, st, limits) == Outcome(Some(Unsupported), st.events)
  {
    hide ParseRun, ParseName, ParseAttributes, Find;
    if AtDeclaration(s) { assert s[0] == '<' && s[1] == '!' && !("<?" <= s); }
    RunSupported(s, "", Reported(st), limits);
    NameSupported(s[1..], limits);
    if |s| >= 2 { NameSupported(s[2..], limits); }
    var n := ParseName(s[1..], limits);
    if n.Got? { AttributesSupported(n.rest, [], Reported(st), limits); }
  }
}
