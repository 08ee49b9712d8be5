/** Reading back a request as if it were a response: the arguments come back in order,
    with their values trimmed. */
module SoapRoundTrip {
  import opened Prelude
  import opened Text
  import opened XmlEvents
  import opened XmlSyntax
  import opened XmlPrint
  import opened XmlRoundTrip
  import opened Soap

  // ---- the tree of a request ----------------------------------------------------------------------

  function ArgumentTree(a: Argument): Tree {
    Tree("", a.0, [], if a.1 == "" then [] else [Chars(a.1)], "")
  }

  function ArgumentItems(arguments: seq<Argument>): seq<Item> {
    if arguments == [] then [Chars(CRLF)]
    else
      ArgumentItems(arguments[..|arguments| - 1]) + [Child(ArgumentTree(arguments[|arguments| - 1]))] + [Chars(CRLF)]
  }

  function ActionTree(serviceType: string, action: string, arguments: seq<Argument>): Tree {
    Tree("u", action, [("xmlns:u", serviceType)], ArgumentItems(arguments), "u")
  }

  /** An element alone on its lines. */
  function Lines(t: Tree): seq<Item> {
    [Chars(CRLF)] + [Child(t)] + [Chars(CRLF)]
  }

  function BodyTree(t: Tree): Tree {
    Tree("s", "Body", [], Lines(t), "s")
  }

  function EnvelopeTree(t: Tree): Tree {
    Tree("s", "Envelope", [("xmlns:s", ENVELOPE_URL), ("s:encodingStyle", ENCODING_URL)], Lines(t), "s")
  }

  // ---- it is what the request prints ---------------------------------------------------------------

  lemma PrintOne(item: Item)
    ensures PrintItems([item]) == PrintItem(item)
  {
    PrintSnoc([], item);
    assert [] + [item] == [item];
  }

  lemma PrintCrlf()
    ensures PrintItem(Chars(CRLF)) == CRLF
  {
    EscapePlain(CRLF);
  }

  lemma PrintLines(t: Tree)
    ensures PrintItems(Lines(t)) == CRLF + Print(t) + CRLF
  {
    hide Print, PrintItems, PrintItem;
    PrintOne(Chars(CRLF));
    PrintSnoc([Chars(CRLF)], Child(t));
    PrintSnoc([Chars(CRLF)] + [Child(t)], Chars(CRLF));
    PrintCrlf();
    PrintChild(t);
  }

  lemma PrintChild(t: Tree)
    ensures PrintItem(Child(t)) == Print(t)
  {
  }

  lemma ArgumentPrints(a: Argument)
    ensures Print(ArgumentTree(a)) + CRLF == PrintArgument(a)
  {
    hide Escape;
    var t := ArgumentTree(a);
    assert StartTag(t) == "<" + a.0 + ">" && EndTag("", a.0) == "</" + a.0 + ">";
    if a.1 != "" {
      PrintOne(Chars(a.1));
      assert PrintItems(t.items) == Escape(a.1);
    } else {
      EscapePlain("");
      assert PrintItems(t.items) == Escape(a.1);
    }
  }

  lemma {:induction false} ArgumentsPrint(arguments: seq<Argument>)
    ensures PrintItems(ArgumentItems(arguments)) == CRLF + PrintArguments(arguments)
  {
    hide PrintItem, Print, PrintArgument, ArgumentTree, PrintItems;
    PrintCrlf();
    if arguments == [] {
      PrintOne(Chars(CRLF));
    } else {
      var init, a := arguments[..|arguments| - 1], arguments[|arguments| - 1];
      ArgumentsPrint(init);
      var before, child := ArgumentItems(init), Child(ArgumentTree(a));
      PrintSnoc(before, child);
      PrintSnoc(before + [child], Chars(CRLF));
      PrintChild(ArgumentTree(a));
      ArgumentPrints(a);
      Assoc(PrintItems(before), Print(ArgumentTree(a)), CRLF);
      Assoc(CRLF, PrintArguments(init), PrintArgument(a));
    }
  }

  lemma ActionPrints(serviceType: string, action: string, arguments: seq<Argument>)
    ensures Print(ActionTree(serviceType, action, arguments))
            == "<u:" + action + " xmlns:u=\"" + Escape(serviceType) + "\">\r\n" + PrintArguments(arguments)
               + "</u:" + action + ">"
  {
    hide Escape, PrintItems, PrintArguments;
    var t := ActionTree(serviceType, action, arguments);
    ArgumentsPrint(arguments);
    assert StartTag(t) == "<u:" + action + " xmlns:u=\"" + Escape(serviceType) + "\">" by { ActionStart(t); }
    assert EndTag("u", action) == "</u:" + action + ">";
  }

  lemma ActionStart(t: Tree)
    requires t.prefix == "u" && |t.attributes| == 1 && t.attributes[0].0 == "xmlns:u"
    ensures StartTag(t) == "<u:" + t.name + " xmlns:u=\"" + Escape(t.attributes[0].1) + "\">"
  {
    hide Escape;
    OneAttribute(t.attributes);
    assert Written("u", t.name) == "u:" + t.name;
  }

  lemma OneAttribute(list: Attributes)
    requires |list| == 1
    ensures PrintAttributes(list) == " " + PrintAttribute(list[0])
  {
    hide PrintAttribute;
    assert list[1..] == [] && PrintAttributes([]) == "";
  }

  lemma EnvelopeStart(t: Tree)
    ensures StartTag(EnvelopeTree(t)) + CRLF
            == "<s:Envelope xmlns:s=\"" + ENVELOPE_URL + "\"" + " s:encodingStyle=\"" + ENCODING_URL + "\">\r\n"
  {
    hide Escape, StartTag;
    UrlsArePlain();
    EnvelopeStartWith(EnvelopeTree(t), ENVELOPE_URL, ENCODING_URL);
  }

  lemma EnvelopeStartWith(t: Tree, url: string, url': string)
    requires t.prefix == "s" && t.name == "Envelope"
    requires t.attributes == [("xmlns:s", url), ("s:encodingStyle", url')] && Escape(url) == url && Escape(url') == url'
    ensures StartTag(t) + CRLF == "<s:Envelope xmlns:s=\"" + url + "\"" + " s:encodingStyle=\"" + url' + "\">\r\n"
  {
    hide Escape, PrintAttributes, PrintAttribute;
    TwoAttributes(t.attributes);
    EnvelopeLiterals();
    PlainAttribute("xmlns:s", url);
    PlainAttribute("s:encodingStyle", url');
    Regroup("<s:Envelope", " ", "xmlns:s" + "=\"", url, "\"", "s:encodingStyle" + "=\"", url', ">", CRLF);
  }

  lemma PlainAttribute(name: string, value: string)
    requires Escape(value) == value
    ensures PrintAttribute((name, value)) == name + "=\"" + value + "\""
  {
  }

  lemma EnvelopeLiterals()
    ensures "<" + Written("s", "Envelope") == "<s:Envelope"
    ensures "<s:Envelope" + " " + ("xmlns:s" + "=\"") == "<s:Envelope xmlns:s=\""
    ensures " " + ("s:encodingStyle" + "=\"") == " s:encodingStyle=\"" && "\"" + ">" + CRLF == "\">\r\n"
  {
  }

  lemma Regroup(h: string, s: string, p: string, u: string, q: string, r: string, v: string, g: string, c: string)
    ensures h + (s + (p + u + q) + (s + (r + v + q))) + g + c == (h + s + p) + u + q + (s + r) + v + (q + g + c)
  {
  }

  lemma TwoAttributes(list: Attributes)
    requires |list| == 2
    ensures PrintAttributes(list) == " " + PrintAttribute(list[0]) + (" " + PrintAttribute(list[1]))
  {
    hide PrintAttribute;
    OneAttribute(list[1..]);
  }

  lemma {:induction false} EscapeConcat(a: string, b: string)
    ensures Escape(a + b) == Escape(a) + Escape(b)
  {
    hide EscapeChar;
    if a == "" {
      assert a + b == b;
    } else {
      assert (a + b)[1..] == a[1..] + b;
      EscapeConcat(a[1..], b);
    }
  }

  lemma UrlsArePlain()
    ensures Escape(ENVELOPE_URL) == ENVELOPE_URL && Escape(ENCODING_URL) == ENCODING_URL
  {
    hide Escape;
    PartsArePlain();
    EscapeConcat("http://schemas.", "xmlsoap.org/soap/");
    EscapeConcat(SCHEMAS, "envelope/");
    EscapeConcat(SCHEMAS, "encoding/");
  }

  lemma PartsArePlain()
    ensures Escape("http://schemas.") == "http://schemas." && Escape("xmlsoap.org/soap/") == "xmlsoap.org/soap/"
    ensures Escape("envelope/") == "envelope/" && Escape("encoding/") == "encoding/"
  {
    hide Escape;
    EscapePlain("http://schemas.");
    EscapePlain("xmlsoap.org/soap/");
    EscapePlain("envelope/");
    EscapePlain("encoding/");
  }

  lemma BodyPrints(t: Tree)
    ensures Print(BodyTree(t)) == "<s:Body>\r\n" + Print(t) + ("\r\n" + "</s:Body>")
  {
    hide Print;
    PrintLines(t);
    PrintIs(BodyTree(t));
    assert StartTag(BodyTree(t)) == "<s:Body>" && EndTag("s", "Body") == "</s:Body>";
    assert "<s:Body>" + (CRLF + Print(t) + CRLF) + "</s:Body>" == "<s:Body>\r\n" + Print(t) + ("\r\n" + "</s:Body>");
  }

  lemma PrintIs(t: Tree)
    ensures Print(t) == StartTag(t) + PrintItems(t.items) + EndTag(t.endPrefix, t.name)
  {
  }

  lemma EnvelopePrints(t: Tree)
    ensures Print(EnvelopeTree(t)) == StartTag(EnvelopeTree(t)) + CRLF + Print(t) + (CRLF + "</s:Envelope>")
  {
    hide Print, StartTag;
    PrintLines(t);
    PrintIs(EnvelopeTree(t));
    assert EndTag("s", "Envelope") == "</s:Envelope>";
    var e := StartTag(EnvelopeTree(t));
    assert e + (CRLF + Print(t) + CRLF) + "</s:Envelope>" == e + CRLF + Print(t) + (CRLF + "</s:Envelope>");
  }

  const DECLARATION: string := "<?xml version=\"1.0\"?>\r\n"

  function ActionLine(serviceType: string, action: string): string {
    "<u:" + action + " xmlns:u=\"" + Escape(serviceType) + "\">\r\n"
  }

  lemma HeadIs(serviceType: string, action: string, t: Tree)
    ensures Head(serviceType, action)
            == DECLARATION + (StartTag(EnvelopeTree(t)) + CRLF) + "<s:Body>\r\n" + ActionLine(serviceType, action)
  {
    hide Escape, StartTag;
    EnvelopeStart(t);
    HeadGroups(DECLARATION, "<s:Envelope xmlns:s=\"", ENVELOPE_URL, "\"", " s:encodingStyle=\"", ENCODING_URL, "\">\r\n",
               "<s:Body>\r\n");
    LineGroups(DECLARATION + (StartTag(EnvelopeTree(t)) + CRLF) + "<s:Body>\r\n", "<u:", action, " xmlns:u=\"",
               Escape(serviceType), "\">\r\n");
  }

  lemma HeadGroups(d: string, e: string, u: string, q: string, f: string, v: string, g: string, b: string)
    ensures d + e + u + q + f + v + g + b == d + (e + u + q + f + v + g) + b
  {
  }

  lemma LineGroups(d: string, a: string, b: string, c: string, e: string, f: string)
    ensures d + a + b + c + e + f == d + (a + b + c + e + f)
  {
  }

  lemma FootGroups(action: string)
    ensures Foot(action) == ("</u:" + action + ">") + ("\r\n" + "</s:Body>") + (CRLF + "</s:Envelope>") + CRLF
  {
    var a := "</u:" + action + ">";
    assert "</u:" + action + ">\r\n" == a + "\r\n";
    assert "\r\n" + "</s:Body>\r\n" == "\r\n" + "</s:Body>" + "\r\n";
    assert "</s:Body>\r\n" == "</s:Body>" + "\r\n" && "</s:Envelope>\r\n" == "</s:Envelope>" + "\r\n";
    PairsGroup(a, "\r\n", "</s:Body>", "\r\n", "</s:Envelope>", "\r\n");
  }

  lemma PairsGroup(a: string, n: string, b: string, n': string, e: string, n'': string)
    ensures (a + n) + (b + n') + (e + n'') == a + (n + b) + (n' + e) + n''
  {
  }

  lemma NestGroups(d: string, e: string, b: string, a: string, p: string, z: string, x: string, y: string, c: string)
    ensures (d + e + b + a) + p + (z + x + y + c) == d + (e + (b + (a + p + z) + x) + y) + c
  {
  }

  /** The request is a declaration, the printed tree, and an end of line. */
  lemma RequestPrints(serviceType: string, action: string, arguments: seq<Argument>)
    ensures Request(serviceType, action, arguments)
            == DECLARATION + Print(EnvelopeTree(BodyTree(ActionTree(serviceType, action, arguments)))) + CRLF
  {
    hide Print, Head, Foot, PrintArguments, Escape, StartTag;
    var t := ActionTree(serviceType, action, arguments);
    HeadIs(serviceType, action, BodyTree(t));
    FootGroups(action);
    ActionPrints(serviceType, action, arguments);
    BodyPrints(t);
    EnvelopePrints(BodyTree(t));
    ActionGroups(ActionLine(serviceType, action), PrintArguments(arguments), "</u:", action, ">");
    NestGroups(DECLARATION, StartTag(EnvelopeTree(BodyTree(t))) + CRLF, "<s:Body>\r\n", ActionLine(serviceType, action),
               PrintArguments(arguments), "</u:" + action + ">", "\r\n" + "</s:Body>", CRLF + "</s:Envelope>", CRLF);
  }

  lemma ActionGroups(a: string, p: string, x: string, y: string, z: string)
    ensures a + p + x + y + z == a + p + (x + y + z)
  {
  }

  // ---- it is within the limits ----------------------------------------------------------------------

  /** Names that can be written, values that fit, and not too many of them. */
  predicate Sendable(serviceType: string, action: string, arguments: seq<Argument>) {
    && IsName(action) && |action| + 2 <= DEFAULT_LIMITS.maxNameLength
    && (forall i :: 0 <= i < |arguments| ==> ArgumentFits(arguments[i]))
    && |arguments| + 3 <= DEFAULT_LIMITS.maxElements
    && |serviceType| + 2 <= DEFAULT_LIMITS.maxTextLength
    && |Request(serviceType, action, arguments)| <= DEFAULT_LIMITS.maxDocumentSize
  }

  predicate ArgumentFits(a: Argument) {
    IsName(a.0) && |a.0| <= DEFAULT_LIMITS.maxNameLength && |a.1| <= DEFAULT_LIMITS.maxTextLength
  }

  lemma OneFits(item: Item, depth: nat, limits: Limits)
    requires ItemFits(item, depth, 0, limits)
    ensures ItemsFit([item], depth, limits) && Counts([item]) == CountItem(item)
    ensures TextOf([item]) == if item.Chars? then item.chunk else ""
  {
    hide ItemFits;
    var none: seq<Item> := [];
    assert none + [item] == [item];
    CountsSnoc(none, item);
    ItemsSnoc(none, item);
    assert [item][..0] == none;
    assert "" + TextOf([item]) == TextOf([item]);
  }

  lemma FitsSnoc(init: seq<Item>, last: Item, depth: nat, limits: Limits)
    requires ItemsFit(init, depth, limits) && ItemFits(last, depth, |TextOf(init)|, limits)
    requires last.Chars? ==> init == [] || init[|init| - 1].Child?
    ensures ItemsFit(init + [last], depth, limits)
  {
    hide ItemFits, TextOf;
    assert (init + [last])[..|init|] == init;
  }

  lemma LinesFit(t: Tree, depth: nat)
    requires TreeFits(t, depth, 2, DEFAULT_LIMITS)
    ensures ItemsFit(Lines(t), depth, DEFAULT_LIMITS) && Counts(Lines(t)) == Count(t)
  {
    hide TreeFits, ItemsFit, Counts, TextOf, Count;
    var c, item := Chars(CRLF), Child(t);
    OneFits(c, depth, DEFAULT_LIMITS);
    FitsSnoc([c], item, depth, DEFAULT_LIMITS);
    ItemsSnoc([c], item);
    assert TextOf([c]) + "" == CRLF;
    FitsSnoc([c] + [item], c, depth, DEFAULT_LIMITS);
    CountsSnoc([c], item);
    CountsSnoc([c] + [item], c);
  }

  lemma ArgumentTreeFits(a: Argument, reported: nat)
    requires ArgumentFits(a)
    ensures TreeFits(ArgumentTree(a), 3, reported, DEFAULT_LIMITS) && Count(ArgumentTree(a)) == 1
  {
    hide IsName;
    if a.1 != "" { OneFits(Chars(a.1), 4, DEFAULT_LIMITS); }
  }

  lemma {:induction false} ArgumentItemsFit(arguments: seq<Argument>)
    requires |arguments| <= DEFAULT_LIMITS.maxElements
    requires forall i :: 0 <= i < |arguments| ==> ArgumentFits(arguments[i])
    ensures ItemsFit(ArgumentItems(arguments), 3, DEFAULT_LIMITS)
    ensures Counts(ArgumentItems(arguments)) == |arguments|
    ensures |TextOf(ArgumentItems(arguments))| == 2 * |arguments| + 2
    ensures ArgumentItems(arguments) != []
  {
    hide TreeFits, ItemsFit, Counts, TextOf, Count, ArgumentFits, ArgumentTree;
    var c := Chars(CRLF);
    if arguments == [] {
      OneFits(c, 3, DEFAULT_LIMITS);
    } else {
      var init, a := arguments[..|arguments| - 1], arguments[|arguments| - 1];
      ArgumentItemsFit(init);
      var before, item := ArgumentItems(init), Child(ArgumentTree(a));
      ArgumentTreeFits(a, |TextOf(before)|);
      FitsSnoc(before, item, 3, DEFAULT_LIMITS);
      ItemsSnoc(before, item);
      FitsSnoc(before + [item], c, 3, DEFAULT_LIMITS);
      ItemsSnoc(before + [item], c);
      CountsSnoc(before, item);
      CountsSnoc(before + [item], c);
    }
  }

  lemma ShortNames()
    ensures IsName("s") && IsName("u") && IsName("xmlns") && IsName("Body") && IsName("Envelope")
    ensures IsName("encodingStyle")
  {
  }

  lemma WrittenSplits(prefix: string, name: string, value: string, full: string, reported: nat)
    requires IsName(prefix) && IsName(name) && full == prefix + ":" + name && |full| <= 256
    requires reported + |value| <= 64 * 1024
    ensures AttributeFits((full, value), reported, DEFAULT_LIMITS)
  {
    hide IsName, SplitName;
    assert prefix != "" by { NamesAreSomething(prefix); }
    SplitWritten(prefix, name);
  }

  lemma NamesAreSomething(n: string)
    requires IsName(n)
    ensures n != ""
  {
  }

  lemma ActionFits(serviceType: string, action: string, arguments: seq<Argument>)
    requires Sendable(serviceType, action, arguments)
    ensures var t := ActionTree(serviceType, action, arguments);
            TreeFits(t, 2, 2, DEFAULT_LIMITS) && Count(t) == |arguments| + 1
  {
    hide IsName, ItemsFit, AttributeFits, Request, Counts, ArgumentItems;
    ShortNames();
    ArgumentItemsFit(arguments);
    assert "xmlns" + ":" + "u" == "xmlns:u";
    WrittenSplits("xmlns", "u", serviceType, "xmlns:u", 2);
  }

  lemma BodyFits(t: Tree)
    requires TreeFits(t, 2, 2, DEFAULT_LIMITS)
    ensures TreeFits(BodyTree(t), 1, 2, DEFAULT_LIMITS) && Count(BodyTree(t)) == Count(t) + 1
  {
    hide IsName, ItemsFit, AttributeFits, Counts, Lines;
    ShortNames();
    LinesFit(t, 2);
  }

  lemma EnvelopeFits(t: Tree)
    requires TreeFits(t, 1, 2, DEFAULT_LIMITS)
    ensures TreeFits(EnvelopeTree(t), 0, 0, DEFAULT_LIMITS) && Count(EnvelopeTree(t)) == Count(t) + 1
  {
    hide IsName, ItemsFit, AttributeFits, Counts, Lines;
    ShortNames();
    LinesFit(t, 1);
    assert "xmlns" + ":" + "s" == "xmlns:s" && "s" + ":" + "encodingStyle" == "s:encodingStyle";
    WrittenSplits("xmlns", "s", ENVELOPE_URL, "xmlns:s", 0);
    WrittenSplits("s", "encodingStyle", ENCODING_URL, "s:encodingStyle", 0);
  }

  // ---- reading it ---------------------------------------------------------------------------------

  /** The declaration and the ends of line around the root are passed over. */
  lemma RequestParses(t: Tree, text: string)
    requires Admitted(t, DEFAULT_LIMITS) && text == DECLARATION + Print(t) + CRLF
    requires |text| <= DEFAULT_LIMITS.maxDocumentSize
    ensures Parse(text, DEFAULT_LIMITS) == Outcome(None, Word(t))
  {
    hide Loop, Admitted, Print, Word, Count;
    var limits, body, root := DEFAULT_LIMITS, "xml version=\"1.0\"", Print(t) + CRLF;
    var st := State([], Count(t), true, Word(t));
    assert "<?" + body + "?>" + (['\r'] + (['\n'] + root)) == text;
    assert text[0] == '<';
    InstructionSkipped(body, ['\r'] + (['\n'] + root), NOTHING_YET, limits);
    SpaceSkipped('\r', ['\n'] + root, NOTHING_YET, limits);
    SpaceSkipped('\n', root, NOTHING_YET, limits);
    RootParses(t, CRLF, limits);
    SpaceSkipped('\r', ['\n'] + "", st, limits);
    SpaceSkipped('\n', "", st, limits);
    assert ['\r'] + (['\n'] + "") == CRLF;
    LoopEnds(st, limits);
  }

  lemma OneItem(item: Item)
    ensures ChildrenOf([item]) == ElementOf(item) && TextOf([item]) == if item.Chars? then item.chunk else ""
  {
    var none: seq<Item> := [];
    ItemsSnoc(none, item);
    assert none + [item] == [item] && [] + ElementOf(item) == ElementOf(item);
    assert "" + TextOf([item]) == TextOf([item]);
  }

  lemma LinesHaveOneChild(t: Tree)
    ensures ChildrenOf(Lines(t)) == [Merge(t)]
  {
    hide ChildrenOf, TextOf, Merge;
    var c, item := Chars(CRLF), Child(t);
    OneItem(c);
    ItemsSnoc([c], item);
    ItemsSnoc([c] + [item], c);
    assert ElementOf(c) == [] && ElementOf(item) == [Merge(t)];
  }

  lemma ArgumentMerges(a: Argument)
    ensures Merge(ArgumentTree(a)) == Element("", a.0, [], a.1, [])
  {
    if a.1 == "" { assert ChildrenOf([]) == [] && TextOf([]) == ""; } else { OneItem(Chars(a.1)); }
  }

  lemma {:induction false} ArgumentsMerge(arguments: seq<Argument>)
    ensures var list := ChildrenOf(ArgumentItems(arguments));
            |list| == |arguments|
            && forall i :: 0 <= i < |list| ==> list[i] == Element("", arguments[i].0, [], arguments[i].1, [])
  {
    hide ChildrenOf, Merge, ArgumentTree, TextOf;
    var c := Chars(CRLF);
    assert ElementOf(c) == [];
    if arguments == [] {
      OneItem(c);
    } else {
      var init, a := arguments[..|arguments| - 1], arguments[|arguments| - 1];
      ArgumentsMerge(init);
      ItemsSnoc(ArgumentItems(init), Child(ArgumentTree(a)));
      ItemsSnoc(ArgumentItems(init) + [Child(ArgumentTree(a))], c);
      assert ElementOf(Child(ArgumentTree(a))) == [Merge(ArgumentTree(a))];
      ArgumentMerges(a);
    }
  }

  function TrimmedValues(arguments: seq<Argument>): seq<Argument> {
    seq(|arguments|, i requires 0 <= i < |arguments| => (arguments[i].0, Trim(arguments[i].1)))
  }

  lemma Interpreted(serviceType: string, action: string, arguments: seq<Argument>)
    ensures var r := Interpret(Merge(EnvelopeTree(BodyTree(ActionTree(serviceType, action, arguments)))));
            if action == "Fault" then r.Device? else r == Results(TrimmedValues(arguments))
  {
    hide ChildrenOf, TextOf, ReadFault, Lines, ArgumentItems, Trim;
    var t := ActionTree(serviceType, action, arguments);
    LinesHaveOneChild(t);
    LinesHaveOneChild(BodyTree(t));
    ArgumentsMerge(arguments);
    assert Merge(t).name == action && Merge(t).children == ChildrenOf(ArgumentItems(arguments));
    var body := Merge(BodyTree(t));
    assert body.name == "Body" && body.children == [Merge(t)];
    OnlyChild(body, "Fault");
    OnlyChild(Merge(EnvelopeTree(BodyTree(t))), "Body");
    assert Values(Merge(t).children) == TrimmedValues(arguments);
  }

  lemma OnlyChild(e: Element, name: string)
    requires |e.children| == 1
    ensures FindChild(e, name) == if e.children[0].name == name then Some(e.children[0]) else None
  {
  }

  /** Reading what was printed: the same arguments in order, their values trimmed, unless
      the action itself is called Fault. */
  lemma RoundTrip(serviceType: string, action: string, arguments: seq<Argument>)
    requires Sendable(serviceType, action, arguments)
    ensures var r := ParseResponse(Request(serviceType, action, arguments));
            if action == "Fault" then r.Device? else r == Results(TrimmedValues(arguments))
  {
    hide Request, Print, Parse, Merge, Zip, Word, Interpret, TrimmedValues, TreeFits, Count;
    var t := ActionTree(serviceType, action, arguments);
    ActionFits(serviceType, action, arguments);
    BodyFits(t);
    EnvelopeFits(BodyTree(t));
    var root := EnvelopeTree(BodyTree(t));
    RequestPrints(serviceType, action, arguments);
    RequestParses(root, Request(serviceType, action, arguments));
    TreeOfWord(root);
    Interpreted(serviceType, action, arguments);
  }
}
