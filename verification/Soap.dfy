/** SOAP over the XML side: writing the request for an action, and reading a response. */
module Soap {
  import opened Prelude
  import opened Text
  import opened XmlEvents
  import opened XmlSyntax
  import opened XmlPrint
  import XmlNesting

  const DEFAULT_LIMITS: Limits := Limits(256 * 1024, 32, 8192, 32, 64 * 1024, 256)

  type Argument = (string, string)

  // ---- reading elements -------------------------------------------------------------------------

  /** The first direct child with a name. */
  function FindIn(list: seq<Element>, name: string): (r: Option<nat>)
    ensures r.Some? ==> r.value < |list| && list[r.value].name == name
    ensures forall i :: 0 <= i < (if r.Some? then r.value else |list|) ==> list[i].name != name
  {
    if list == [] then None
    else if list[0].name == name then Some(0)
    else
      var r := FindIn(list[1..], name);
      if r.Some? then Some(r.value + 1) else None
  }

  function FindChild(e: Element, name: string): Option<Element> {
    match FindIn(e.children, name) case None => None case Some(i) => Some(e.children[i])
  }

  function ChildText(e: Element, name: string): string {
    match FindChild(e, name) case None => "" case Some(c) => Trim(c.text)
  }

  function Height(e: Element): nat {
    1 + Heights(e.children)
  }

  function Heights(list: seq<Element>): nat {
    if list == [] then 0
    else
      var h, hs := Height(list[0]), Heights(list[1..]);
      if h > hs then h else hs
  }

  /** All the children of a level, which is one level further down. */
  function Below(level: seq<Element>): (next: seq<Element>)
    ensures level != [] ==> Heights(next) < Heights(level)
    ensures level == [] ==> next == []
  {
    if level == [] then []
    else
      var rest := Below(level[1..]);
      HeightsConcat(level[0].children, rest);
      level[0].children + rest
  }

  lemma {:induction false} HeightsConcat(a: seq<Element>, b: seq<Element>)
    ensures Heights(a + b) == if Heights(a) > Heights(b) then Heights(a) else Heights(b)
  {
    if a == [] {
      assert a + b == b;
    } else {
      assert (a + b)[1..] == a[1..] + b;
      HeightsConcat(a[1..], b);
    }
  }

  /** Breadth first, one level at a time. */
  function FindBelow(level: seq<Element>, name: string): Option<Element>
    decreases Heights(level)
  {
    if level == [] then None
    else
      var next := Below(level);
      match FindIn(next, name)
      case Some(i) => Some(next[i])
      case None => FindBelow(next, name)
  }

  // ---- responses --------------------------------------------------------------------------------

  /** A fault as it arrived, with its code as text. */
  datatype Fault = Fault(code: string, description: string)

  datatype Response = BadResponse | Device(fault: Fault) | Results(arguments: seq<Argument>)

  function ReadFault(fault: Element): Fault {
    var upnp := FindBelow([fault], "UPnPError");
    var code := if upnp.Some? then ChildText(upnp.value, "errorCode") else "";
    var description := if upnp.Some? then ChildText(upnp.value, "errorDescription") else "";
    Fault(code, if description == "" then ChildText(fault, "faultstring") else description)
  }

  function Values(list: seq<Element>): (r: seq<Argument>)
    ensures |r| == |list|
  {
    seq(|list|, i requires 0 <= i < |list| => (list[i].name, Trim(list[i].text)))
  }

  function Interpret(root: Element): Response {
    if root.name != "Envelope" then BadResponse
    else
      match FindChild(root, "Body")
      case None => BadResponse
      case Some(body) =>
        match FindChild(body, "Fault")
        case Some(fault) => Device(ReadFault(fault))
        case None =>
          if |body.children| != 1 then BadResponse else Results(Values(body.children[0].children))
  }

  function ParseResponse(text: string): Response {
    var o := Parse(text, DEFAULT_LIMITS);
    if o.error.Some? then BadResponse
    else
      XmlNesting.Accepted(text, DEFAULT_LIMITS);
      Interpret(Merge(Zip(o.events).value.root.value))
  }

  // ---- requests -----------------------------------------------------------------------------------

  const SCHEMAS: string := "http://schemas." + "xmlsoap.org/soap/"
  const ENVELOPE_URL: string := SCHEMAS + "envelope/"
  const ENCODING_URL: string := SCHEMAS + "encoding/"

  function PrintArgument(a: Argument): string {
    "<" + a.0 + ">" + Escape(a.1) + "</" + a.0 + ">\r\n"
  }

  function PrintArguments(arguments: seq<Argument>): string {
    if arguments == [] then ""
    else PrintArguments(arguments[..|arguments| - 1]) + PrintArgument(arguments[|arguments| - 1])
  }

  function Head(serviceType: string, action: string): string {
    "<?xml version=\"1.0\"?>\r\n"
    + "<s:Envelope xmlns:s=\"" + ENVELOPE_URL + "\"" + " s:encodingStyle=\"" + ENCODING_URL + "\">\r\n"
    + "<s:Body>\r\n"
    + "<u:" + action + " xmlns:u=\"" + Escape(serviceType) + "\">\r\n"
  }

  function Foot(action: string): string {
    "</u:" + action + ">\r\n" + "</s:Body>\r\n" + "</s:Envelope>\r\n"
  }

  function Request(serviceType: string, action: string, arguments: seq<Argument>): string {
    Head(serviceType, action) + PrintArguments(arguments) + Foot(action)
  }

  method BuildRequest(serviceType: string, action: string, arguments: seq<Argument>) returns (out: string)
    ensures out == Request(serviceType, action, arguments)
  {
    hide Head, Foot, PrintArgument;
    out := BuildHead(serviceType, action);
    for i := 0 to |arguments|
      invariant out == Head(serviceType, action) + PrintArguments(arguments[..i])
    {
      var piece := BuildArgument(arguments[i]);
      assert arguments[..i + 1][..i] == arguments[..i];
      Assoc(Head(serviceType, action), PrintArguments(arguments[..i]), piece);
      out := out + piece;
    }
    assert arguments[..|arguments|] == arguments;
    var foot := "</u:" + action + ">\r\n" + "</s:Body>\r\n" + "</s:Envelope>\r\n";
    assert foot == Foot(action) by { FootIs(action); }
    out := out + foot;
  }

  lemma FootIs(action: string)
    ensures Foot(action) == "</u:" + action + ">\r\n" + "</s:Body>\r\n" + "</s:Envelope>\r\n"
  {
  }

  method BuildHead(serviceType: string, action: string) returns (out: string)
    ensures out == Head(serviceType, action)
  {
    hide Escape;
    out := "<?xml version=\"1.0\"?>\r\n";
    out := out + "<s:Envelope xmlns:s=\"" + ENVELOPE_URL + "\"" + " s:encodingStyle=\"" + ENCODING_URL + "\">\r\n";
    out := out + "<s:Body>\r\n";
    out := out + "<u:" + action + " xmlns:u=\"";
    var escaped := XmlEscape(serviceType);
    out := out + escaped + "\">\r\n";
  }

  method BuildArgument(a: Argument) returns (out: string)
    ensures out == PrintArgument(a)
  {
    hide Escape;
    var escaped := XmlEscape(a.1);
    out := "<" + a.0 + ">" + escaped + "</" + a.0 + ">\r\n";
  }
}
