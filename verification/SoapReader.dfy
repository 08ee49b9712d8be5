/** Reading a response from the tree on the heap: the loops over children and levels. */
module SoapReader {
  import opened Prelude
  import opened Text
  import opened XmlEvents
  import opened XmlTree
  import opened Soap
  import XmlParser

  lemma IsParts(node: XmlElement, e: Element, nodes: set<XmlElement>)
    requires Is(node, e, nodes)
    ensures node.name == e.name && node.text == e.text && AreAll(node.children, e.children, nodes)
  {
  }

  /** The first element with a name in a list that stands for these values. */
  method FindFirst(list: seq<XmlElement>, name: string, ghost values: seq<Element>, ghost nodes: set<XmlElement>)
    returns (found: XmlElement?)
    requires AreAll(list, values, nodes)
    ensures match FindIn(values, name)
            case None => found == null
            case Some(i) => found != null && Is(found, values[i], nodes)
  {
    hide Is, FindIn;
    for i := 0 to |list|
      invariant forall k :: 0 <= k < i ==> values[k].name != name
    {
      IsParts(list[i], values[i], nodes);
      if list[i].name == name { return list[i]; }
    }
    found := null;
  }

  method GetChildText(node: XmlElement, name: string, ghost e: Element, ghost nodes: set<XmlElement>) returns (text: string)
    requires Is(node, e, nodes)
    ensures text == ChildText(e, name)
  {
    hide Is, FindIn, Trim;
    IsParts(node, e, nodes);
    var found := FindFirst(node.children, name, e.children, nodes);
    if found == null { return ""; }
    IsParts(found, e.children[FindIn(e.children, name).value], nodes);
    text := TrimIndices(found.text);
  }

  lemma BelowSnoc(level: seq<Element>, e: Element)
    ensures Below(level + [e]) == Below(level) + e.children
  {
    if level == [] {
      assert level + [e] == [e] && [e][1..] == [] && Below([e]) == e.children + [];
    } else {
      assert (level + [e])[1..] == level[1..] + [e];
      BelowSnoc(level[1..], e);
      Assoc(level[0].children, Below(level[1..]), e.children);
    }
  }

  lemma AreAllConcat(a: seq<XmlElement>, x: seq<Element>, b: seq<XmlElement>, y: seq<Element>, nodes: set<XmlElement>)
    requires AreAll(a, x, nodes) && AreAll(b, y, nodes)
    ensures AreAll(a + b, x + y, nodes)
  {
    hide Is;
  }

  /** The children of a whole level, in order. */
  method NextLevel(level: seq<XmlElement>, ghost values: seq<Element>, ghost nodes: set<XmlElement>)
    returns (next: seq<XmlElement>)
    requires AreAll(level, values, nodes)
    ensures AreAll(next, Below(values), nodes)
  {
    hide Is, Below;
    next := [];
    NoneBelow();
    assert values[..0] == [];
    NoneAreAll(nodes);
    for i := 0 to |level|
      invariant AreAll(next, Below(values[..i]), nodes)
    {
      assert values[..i + 1] == values[..i] + [values[i]];
      BelowSnoc(values[..i], values[i]);
      IsParts(level[i], values[i], nodes);
      AreAllConcat(next, Below(values[..i]), level[i].children, values[i].children, nodes);
      next := next + level[i].children;
    }
    assert values[..|level|] == values;
  }

  lemma NoneBelow()
    ensures Below([]) == []
  {
  }

  method FindDescendant(node: XmlElement, name: string, ghost e: Element, ghost nodes: set<XmlElement>)
    returns (found: XmlElement?)
    requires Is(node, e, nodes)
    ensures match FindBelow([e], name)
            case None => found == null
            case Some(d) => found != null && Is(found, d, nodes)
  {
    hide Is, Below, FindIn;
    var level := [node];
    ghost var values := [e];
    while level != []
      invariant AreAll(level, values, nodes) && FindBelow(values, name) == FindBelow([e], name)
      decreases Heights(values)
    {
      var next := NextLevel(level, values, nodes);
      ghost var below := Below(values);
      found := FindFirst(next, name, below, nodes);
      if found != null { return; }
      level, values := next, below;
    }
    found := null;
  }

  method ReadFaultElement(fault: XmlElement, ghost e: Element, ghost nodes: set<XmlElement>) returns (reported: Fault)
    requires Is(fault, e, nodes)
    ensures reported == ReadFault(e)
  {
    hide Is, FindBelow, ChildText;
    reported := Fault("", "");
    var upnp := FindDescendant(fault, "UPnPError", e, nodes);
    if upnp != null {
      ghost var u := FindBelow([e], "UPnPError").value;
      var code := GetChildText(upnp, "errorCode", u, nodes);
      var description := GetChildText(upnp, "errorDescription", u, nodes);
      reported := Fault(code, description);
    }
    if reported.description == "" {
      var text := GetChildText(fault, "faultstring", e, nodes);
      reported := reported.(description := text);
    }
  }

  method ReadValues(list: seq<XmlElement>, ghost values: seq<Element>, ghost nodes: set<XmlElement>)
    returns (arguments: seq<Argument>)
    requires AreAll(list, values, nodes)
    ensures arguments == Values(values)
  {
    hide Is, Trim;
    arguments := [];
    for i := 0 to |list|
      invariant arguments == Values(values[..i])
    {
      IsParts(list[i], values[i], nodes);
      var text := TrimIndices(list[i].text);
      arguments := arguments + [(list[i].name, text)];
    }
    assert values[..|list|] == values;
  }

  method InterpretTree(root: XmlElement, ghost e: Element, ghost nodes: set<XmlElement>) returns (r: Response)
    requires Is(root, e, nodes)
    ensures r == Interpret(e)
  {
    hide Is, FindIn, ReadFault, Values;
    IsParts(root, e, nodes);
    if root.name != "Envelope" { return BadResponse; }
    var body := FindFirst(root.children, "Body", e.children, nodes);
    if body == null { return BadResponse; }
    ghost var b := e.children[FindIn(e.children, "Body").value];
    IsParts(body, b, nodes);
    var fault := FindFirst(body.children, "Fault", b.children, nodes);
    if fault != null {
      var reported := ReadFaultElement(fault, b.children[FindIn(b.children, "Fault").value], nodes);
      return Device(reported);
    }
    var response: XmlElement? := null;
    for i := 0 to |body.children|
      invariant i <= 1 && (i == 0 <==> response == null) && (i == 1 ==> response == body.children[0])
    {
      if response != null { return BadResponse; }
      response := body.children[i];
    }
    if response == null { return BadResponse; }
    IsParts(response, b.children[0], nodes);
    var arguments := ReadValues(response.children, b.children[0].children, nodes);
    r := Results(arguments);
  }

  method ReadResponse(text: string) returns (r: Response)
    ensures r == ParseResponse(text)
  {
    hide Is, XmlSyntax.Parse, Interpret, Merge, Word, Zip;
    var error, root, t, nodes := XmlParser.ParseDocument(text, DEFAULT_LIMITS);
    if error != None { return BadResponse; }
    TreeOfWord(t);
    r := InterpretTree(root, Merge(t), nodes);
  }
}
