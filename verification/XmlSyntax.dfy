/** The XML parser as functions on the text that is left: every construct, its errors and
    its limits.  A byte is a character below 256. */
module XmlSyntax {
  import opened Prelude
  import opened ByteBuffer
  import opened Text
  import opened XmlEvents

  datatype XmlError = Truncated | Syntax | Mismatch | DepthExceeded | SizeExceeded | Unsupported

  datatype Limits = Limits(maxDocumentSize: nat, maxDepth: nat, maxElements: nat,
                           maxAttributes: nat, maxTextLength: nat, maxNameLength: nat)

  datatype Parsed<+T> = Fail(error: XmlError) | Got(value: T, rest: string)

  // ---- characters and tokens ------------------------------------------------------------------

  predicate IsNameStart(c: char) {
    'A' <= c <= 'Z' || 'a' <= c <= 'z' || c == '_' || c as int >= 0x80
  }

  predicate IsNameChar(c: char) {
    IsNameStart(c) || '0' <= c <= '9' || c == '-' || c == '.'
  }

  /** Where a token first occurs. */
  function Find(s: string, token: string): (r: Option<nat>)
    ensures r.Some? ==> r.value + |token| <= |s|
  {
    if |s| < |token| then None
    else if token <= s then Some(0)
    else if s == "" then None
    else
      match Find(s[1..], token)
      case None => None
      case Some(i) => Some(i + 1)
  }

  /** It is the first, and none is found only where there is none. */
  lemma {:induction false} FindIsFirst(s: string, token: string)
    ensures Find(s, token).Some? ==> token <= s[Find(s, token).value..]
    ensures forall i :: 0 <= i < (if Find(s, token).Some? then Find(s, token).value else |s| + 1) ==> !(token <= s[i..])
    decreases |s|
  {
    var r := Find(s, token);
    assert s[0..] == s;
    if |s| >= |token| && !(token <= s) && s != "" {
      FindIsFirst(s[1..], token);
      forall i | 0 <= i < (if r.Some? then r.value else |s| + 1) ensures !(token <= s[i..]) {
        if i > 0 { assert s[i..] == s[1..][i - 1..]; }
      }
    }
  }

  // ---- names ----------------------------------------------------------------------------------

  function NameLength(s: string): (k: nat)
    ensures k <= |s|
  {
    if s != "" && (IsNameChar(s[0]) || s[0] == ':') then NameLength(s[1..]) + 1 else 0
  }

  datatype Name = Name(prefix: string, local: string)

  /** A written name split at its first colon. */
  function SplitName(full: string): (r: Option<Name>)
  {
    match IndexOf(full, ':', 0)
    case None => Some(Name("", full))
    case Some(i) =>
      var name := Name(full[..i], full[i + 1..]);
      if name.local == "" || name.prefix == "" || ':' in name.local || !IsNameStart(name.local[0]) then None
      else Some(name)
  }

  function ParseName(s: string, limits: Limits): (r: Parsed<Name>)
    ensures r.Got? ==> |r.rest| < |s|
  {
    if s == "" || !IsNameStart(s[0]) then Fail(Syntax)
    else
      var k := NameLength(s);
      if k > limits.maxNameLength then Fail(SizeExceeded)
      else
        match SplitName(s[..k])
        case None => Fail(Syntax)
        case Some(name) => Got(name, s[k..])
  }

  // ---- references -----------------------------------------------------------------------------

  function Base(hex: bool): nat {
    if hex then 16 else 10
  }

  /** The number that digits denote, unless it passes the last code point on the way. */
  function CharNumber(digits: string, hex: bool, value: nat): Option<nat> {
    if digits == "" then Some(value)
    else
      match Digit(digits[0], Base(hex))
      case None => None
      case Some(d) =>
        var more := value * Base(hex) + d;
        if more > 0x10ffff then None else CharNumber(digits[1..], hex, more)
  }

  /** The UTF-8 of a code point; a surrogate has none. */
  function Utf8(c: nat): Option<string> {
    if c > 0x10ffff || 0xd800 <= c <= 0xdfff then None
    else if c < 0x80 then Some([c as char])
    else if c < 0x800 then Some([(0xc0 + c / 64) as char, (0x80 + c % 64) as char])
    else if c < 0x10000 then
      Some([(0xe0 + c / 4096) as char, (0x80 + c / 64 % 64) as char, (0x80 + c % 64) as char])
    else
      Some([(0xf0 + c / 262144) as char, (0x80 + c / 4096 % 64) as char,
                      (0x80 + c / 64 % 64) as char, (0x80 + c % 64) as char])
  }

  function Entity(body: string): Option<char> {
    if body == "amp" then Some('&')
    else if body == "lt" then Some('<')
    else if body == "gt" then Some('>')
    else if body == "quot" then Some('"')
    else if body == "apos" then Some('\'')
    else None
  }

  /** What a numeric reference stands for.  Zero is not a character. */
  function Numeric(body: string): Option<nat>
    requires body != ""
  {
    var hex := |body| > 1 && (body[1] == 'x' || body[1] == 'X');
    var digits := body[if hex then 2 else 1..];
    if digits == "" then None
    else
      match CharNumber(digits, hex, 0)
      case None => None
      case Some(v) => if v == 0 then None else Some(v)
  }

  /** A reference at the start of the text, added to what has been assembled.  A numeric
      one is held against the limit without what was reported before. */
  function Reference(s: string, out: string, reported: nat, limits: Limits): (r: Parsed<string>)
    requires s != "" && s[0] == '&'
    ensures r.Got? ==> |r.rest| < |s|
  {
    match IndexOf(s, ';', 0)
    case None => Fail(Truncated)
    case Some(semi) =>
      if semi > 32 then Fail(Syntax)
      else
        var body := s[1..semi];
        if body == "" then Fail(Syntax)
        else if body[0] == '#' then
          match Numeric(body) {
            case None => Fail(Syntax)
            case Some(v) =>
              if |out| + 4 > limits.maxTextLength then Fail(SizeExceeded)
              else match Utf8(v) case None => Fail(Syntax) case Some(bytes) => Got(out + bytes, s[semi + 1..])
          }
        else
          match Entity(body)
          case None => Fail(Syntax)
          case Some(c) =>
            if reported + |out| + 1 > limits.maxTextLength then Fail(SizeExceeded) else Got(out + [c], s[semi + 1..])
  }

  // ---- character data -----------------------------------------------------------------------

  /** The characters before the next markup, reference or given character. */
  function Plain(s: string, stop: char): (k: nat)
    ensures k <= |s|
    ensures s != "" && s[0] != stop && s[0] != '&' && s[0] != '<' ==> k > 0
  {
    if s != "" && s[0] != stop && s[0] != '&' && s[0] != '<' then Plain(s[1..], stop) + 1 else 0
  }

  /** An attribute value up to its closing quote. */
  function ParseValue(s: string, quote: char, value: string, reported: nat, limits: Limits): (r: Parsed<string>)
    ensures r.Got? ==> |r.rest| < |s|
    decreases |s|
  {
    if s == "" then Fail(Truncated)
    else if s[0] == quote then Got(value, s[1..])
    else if s[0] == '<' then Fail(Syntax)
    else if s[0] == '&' then
      match Reference(s, value, reported, limits) {
        case Fail(e) => Fail(e)
        case Got(v, rest) => ParseValue(rest, quote, v, reported, limits)
      }
    else
      var k := Plain(s, quote);
      if reported + |value| + k > limits.maxTextLength then Fail(SizeExceeded)
      else ParseValue(s[k..], quote, value + s[..k], reported, limits)
  }

  /** A run of character data, up to the next markup or the end. */
  function ParseRun(s: string, out: string, reported: nat, limits: Limits): (r: Parsed<string>)
    ensures r.Got? ==> |r.rest| <= |s|
    ensures r.Got? && s != "" && s[0] != '<' ==> |r.rest| < |s|
    decreases |s|
  {
    if s == "" || s[0] == '<' then Got(out, s)
    else if s[0] == '&' then
      match Reference(s, out, reported, limits) {
        case Fail(e) => Fail(e)
        case Got(v, rest) => ParseRun(rest, v, reported, limits)
      }
    else
      var k := Plain(s, '<');
      if reported + |out| + k > limits.maxTextLength then Fail(SizeExceeded)
      else ParseRun(s[k..], out + s[..k], reported, limits)
  }

  // ---- attributes ---------------------------------------------------------------------------

  /** The prefix of an attribute stays part of its name. */
  function FullName(name: Name): string {
    if name.prefix == "" then name.local else name.prefix + ":" + name.local
  }

  /** The equals sign and the opening quote, with space around. */
  function ParseEquals(s: string): (r: Parsed<char>)
    ensures r.Got? ==> |r.rest| < |s|
  {
    TrimLeftSplits(s);
    var t := TrimLeft(s);
    if t == "" then Fail(Truncated)
    else if t[0] != '=' then Fail(Syntax)
    else
      TrimLeftSplits(t[1..]);
      var u := TrimLeft(t[1..]);
      if u == "" then Fail(Truncated)
      else if u[0] != '"' && u[0] != '\'' then Fail(Syntax)
      else Got(u[0], u[1..])
  }

  function ParseAttribute(s: string, reported: nat, limits: Limits): (r: Parsed<(string, string)>)
    ensures r.Got? ==> |r.rest| < |s|
  {
    match ParseName(s, limits)
    case Fail(e) => Fail(e)
    case Got(name, afterName) =>
      match ParseEquals(afterName)
      case Fail(e) => Fail(e)
      case Got(quote, afterQuote) =>
        match ParseValue(afterQuote, quote, "", reported, limits)
        case Fail(e) => Fail(e)
        case Got(value, rest) => Got((FullName(name), value), rest)
  }

  datatype Tag = Tag(attributes: Attributes, empty: bool)

  function ParseAttributes(s: string, attributes: Attributes, reported: nat, limits: Limits): (r: Parsed<Tag>)
    ensures r.Got? ==> |r.rest| < |s|
    decreases |s|
  {
    TrimLeftSplits(s);
    var t := TrimLeft(s);
    if t == "" then Fail(Truncated)
    else if t[0] == '>' then Got(Tag(attributes, false), t[1..])
    else if "/>" <= t then Got(Tag(attributes, true), t[2..])
    else
      match ParseAttribute(t, reported, limits)
      case Fail(e) => Fail(e)
      case Got(a, rest) =>
        if |attributes| >= limits.maxAttributes then Fail(SizeExceeded)
        else ParseAttributes(rest, attributes + [a], reported, limits)
  }

  // ---- the parser's state --------------------------------------------------------------------

  datatype Open = Open(prefix: string, name: string, textLength: nat)

  /** The events are those handed to the sink. */
  datatype State = State(stack: seq<Open>, elements: nat, hadRoot: bool, events: seq<Event>)

  /** What was reported for the innermost element. */
  function Reported(st: State): nat {
    if st.stack == [] then 0 else st.stack[|st.stack| - 1].textLength
  }

  function Emit(st: State, chunk: string): State
    requires st.stack != []
  {
    if chunk == "" then st
    else
      var top := st.stack[|st.stack| - 1];
      st.(stack := st.stack[..|st.stack| - 1] + [top.(textLength := top.textLength + |chunk|)],
          events := st.events + [Text(chunk)])
  }

  function TextStep(s: string, st: State, limits: Limits): (r: Parsed<State>)
    requires s != "" && s[0] != '<' && st.stack != []
    ensures r.Got? ==> |r.rest| < |s|
  {
    match ParseRun(s, "", Reported(st), limits)
    case Fail(e) => Fail(e)
    case Got(out, rest) => Got(Emit(st, out), rest)
  }

  function CdataStep(s: string, st: State, limits: Limits): (r: Parsed<State>)
    requires |s| >= 9 && st.stack != []
    ensures r.Got? ==> |r.rest| < |s|
  {
    var t := s[9..];
    match Find(t, "]]>")
    case None => Fail(Truncated)
    case Some(end) =>
      if Reported(st) + end > limits.maxTextLength then Fail(SizeExceeded)
      else Got(Emit(st, t[..end]), t[end + 3..])
  }

  /** A comment or a processing instruction is passed over, a declaration refused. */
  function MiscStep(s: string, st: State): (r: Parsed<State>)
    requires "<!" <= s || "<?" <= s
    ensures r.Got? ==> |r.rest| < |s| && r.value == st
  {
    if "<!--" <= s then
      var t := s[4..];
      match Find(t, "-->") {
        case None => Fail(Truncated)
        case Some(end) => if Find(t[..end], "--").Some? then Fail(Syntax) else Got(st, t[end + 3..])
      }
    else if "<?" <= s then
      var t := s[2..];
      match Find(t, "?>") {
        case None => Fail(Truncated)
        case Some(end) => Got(st, t[end + 2..])
      }
    else Fail(Unsupported)
  }

  function EndStep(s: string, st: State, limits: Limits): (r: Parsed<State>)
    requires |s| >= 2
    ensures r.Got? ==> |r.rest| < |s|
  {
    match ParseName(s[2..], limits)
    case Fail(e) => Fail(e)
    case Got(name, afterName) =>
      TrimLeftSplits(afterName);
      var t := TrimLeft(afterName);
      if t == "" then Fail(Truncated)
      else if t[0] != '>' then Fail(Syntax)
      else if st.stack == [] || st.stack[|st.stack| - 1].name != name.local then Fail(Mismatch)
      else
        Got(st.(stack := st.stack[..|st.stack| - 1], events := st.events + [End(name.prefix, name.local)]), t[1..])
  }

  /** The element begins, and an empty one ends at once. */
  function Opened(st: State, name: Name, tag: Tag): State {
    var start := st.events + [Start(name.prefix, name.local, tag.attributes)];
    if tag.empty then
      State(st.stack, st.elements, st.hadRoot || st.stack == [], start + [End(name.prefix, name.local)])
    else
      State(st.stack + [Open(name.prefix, name.local, 0)], st.elements, st.hadRoot || st.stack == [], start)
  }

  function ElementStep(s: string, st: State, limits: Limits): (r: Parsed<State>)
    requires s != ""
    ensures r.Got? ==> |r.rest| < |s|
  {
    if st.elements + 1 > limits.maxElements then Fail(SizeExceeded)
    else if |st.stack| >= limits.maxDepth then Fail(DepthExceeded)
    else if st.stack == [] && st.hadRoot then Fail(Syntax)
    else
      match ParseName(s[1..], limits)
      case Fail(e) => Fail(e)
      case Got(name, afterName) =>
        match ParseAttributes(afterName, [], Reported(st), limits)
        case Fail(e) => Fail(e)
        case Got(tag, rest) => Got(Opened(st.(elements := st.elements + 1), name, tag), rest)
  }

  /** One turn of the loop. */
  function Step(s: string, st: State, limits: Limits): (r: Parsed<State>)
    requires s != ""
    ensures r.Got? ==> |r.rest| < |s|
  {
    if s[0] != '<' then
      if st.stack != [] then TextStep(s, st, limits)
      else if IsSpace(s[0]) then Got(st, s[1..])
      else Fail(Syntax)
    else if "<![CDATA[" <= s then
      if st.stack == [] then Fail(Syntax) else CdataStep(s, st, limits)
    else if "<!" <= s || "<?" <= s then MiscStep(s, st)
    else if "</" <= s then EndStep(s, st, limits)
    else if |s| == 1 then Fail(Truncated)
    else ElementStep(s, st, limits)
  }

  /** How the parse ended, and what had been reported by then. */
  datatype Outcome = Outcome(error: Option<XmlError>, events: seq<Event>)

  function Loop(s: string, st: State, limits: Limits): Outcome
    decreases |s|
  {
    if s == "" then
      Outcome(if st.stack != [] || !st.hadRoot then Some(Truncated) else None, st.events)
    else
      match Step(s, st, limits)
      case Fail(e) => Outcome(Some(e), st.events)
      case Got(st', rest) => Loop(rest, st', limits)
  }

  const BOM: string := [0xef as char, 0xbb as char, 0xbf as char]

  function Parse(text: string, limits: Limits): Outcome {
    if |text| > limits.maxDocumentSize then Outcome(Some(SizeExceeded), [])
    else Loop(if BOM <= text then text[3..] else text, State([], 0, false, []), limits)
  }
}
