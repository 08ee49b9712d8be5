/** The parser object: a position that moves over the text, an explicit stack of open
    elements, and the events handed to the sink.  Each method is proved against the
    function for its construct on the text that is left. */
module XmlParser {
  import opened Prelude
  import opened ByteBuffer
  import opened Text
  import opened XmlEvents
  import X = XmlSyntax
  import XmlTree
  import XmlNesting

  type Error = Option<X.XmlError>

  /** What a method reports and leaves behind is what the function yields. */
  ghost predicate Yields<T(!new)>(r: X.Parsed<T>, error: Error, value: T, left: string) {
    match r
    case Fail(e) => error == Some(e)
    case Got(v, rest) => error == None && value == v && left == rest
  }

  lemma Slice(s: string, i: nat, a: nat, b: nat)
    requires a <= b && i + b <= |s|
    ensures s[i..][a..b] == s[i + a..i + b]
  {
  }

  lemma Tail(s: string, i: nat, a: nat)
    requires i + a <= |s|
    ensures s[i..][a..] == s[i + a..]
  {
  }

  method PlainEnd(text: string, begin: nat, stop: char) returns (end: nat)
    requires begin <= |text|
    ensures begin <= end <= |text| && end - begin == X.Plain(text[begin..], stop)
  {
    end := begin;
    while end < |text| && text[end] != stop && text[end] != '&' && text[end] != '<'
      invariant begin <= end <= |text| && end - begin + X.Plain(text[end..], stop) == X.Plain(text[begin..], stop)
    {
      Tail(text, end, 1);
      end := end + 1;
    }
  }

  method NameEnd(text: string, begin: nat) returns (end: nat)
    requires begin <= |text|
    ensures begin <= end <= |text| && end - begin == X.NameLength(text[begin..])
  {
    end := begin;
    while end < |text| && (X.IsNameChar(text[end]) || text[end] == ':')
      invariant begin <= end <= |text| && end - begin + X.NameLength(text[end..]) == X.NameLength(text[begin..])
    {
      Tail(text, end, 1);
      end := end + 1;
    }
  }

  class Parser {
    const text: string
    const limits: X.Limits
    var pos: nat
    var elements: nat
    var hadRoot: bool
    var stack: seq<X.Open>
    var events: seq<Event>

    ghost predicate Valid()
      reads this
    {
      pos <= |text|
    }

    ghost function Left(): string
      requires Valid()
      reads this
    {
      text[pos..]
    }

    ghost function Model(): X.State
      reads this
    {
      X.State(stack, elements, hadRoot, events)
    }

    constructor (text: string, limits: X.Limits)
      ensures Valid() && this.text == text && this.limits == limits
      ensures Left() == text && Model() == X.State([], 0, false, [])
    {
      this.text, this.limits := text, limits;
      pos, elements, hadRoot, stack, events := 0, 0, false, [], [];
    }

    predicate Done()
      reads this
    {
      pos >= |text|
    }

    predicate LookingAt(token: string)
      requires Valid()
      reads this
      ensures LookingAt(token) == (token <= Left())
    {
      token <= text[pos..]
    }

    method SkipSpace()
      requires Valid()
      modifies this`pos
      ensures Valid() && Left() == TrimLeft(old(Left()))
    {
      while !Done() && IsSpace(text[pos])
        invariant Valid() && TrimLeft(Left()) == TrimLeft(old(Left()))
        decreases |text| - pos
      {
        Tail(text, pos, 1);
        pos := pos + 1;
      }
    }

    method ParseName() returns (error: Error, name: X.Name)
      requires Valid()
      modifies this`pos
      ensures Valid() && Yields(X.ParseName(old(Left()), limits), error, name, Left())
    {
      hide X.NameLength, X.SplitName;
      name := X.Name("", "");
      if Done() || !X.IsNameStart(text[pos]) { return Some(X.Syntax), name; }
      var end := NameEnd(text, pos);
      var full := text[pos..end];
      Slice(text, pos, 0, end - pos);
      Tail(text, pos, end - pos);
      if |full| > limits.maxNameLength { return Some(X.SizeExceeded), name; }
      error, name := SplitName(full);
      pos := end;
    }

    method SplitName(full: string) returns (error: Error, name: X.Name)
      ensures match X.SplitName(full) case None => error == Some(X.Syntax) case Some(n) => error == None && name == n
    {
      name := X.Name("", full);
      var colon := IndexOf(full, ':', 0);
      if colon.None? { return None, name; }
      name := X.Name(full[..colon.value], full[colon.value + 1..]);
      if name.local == "" || name.prefix == "" { return Some(X.Syntax), name; }
      if ':' in name.local { return Some(X.Syntax), name; }
      if !X.IsNameStart(name.local[0]) { return Some(X.Syntax), name; }
      error := None;
    }

    /** The digits of a numeric reference, as they are read. */
    method ReadNumber(digits: string, hex: bool) returns (value: Option<nat>)
      ensures value == X.CharNumber(digits, hex, 0)
    {
      hide Digit;
      var v: nat := 0;
      for i := 0 to |digits|
        invariant X.CharNumber(digits, hex, 0) == X.CharNumber(digits[i..], hex, v)
      {
        assert digits[i..][1..] == digits[i + 1..];
        var d := Digit(digits[i], X.Base(hex));
        if d.None? { return None; }
        v := v * X.Base(hex) + d.value;
        if v > 0x10ffff { return None; }
      }
      value := Some(v);
    }

    method ReadNumeric(body: string) returns (value: Option<nat>)
      requires body != ""
      ensures value == X.Numeric(body)
    {
      hide X.CharNumber;
      var hex := |body| > 1 && (body[1] == 'x' || body[1] == 'X');
      var digits := body[if hex then 2 else 1..];
      if digits == "" { return None; }
      value := ReadNumber(digits, hex);
      if value == Some(0) { value := None; }
    }

    /** What was reported for the element that character data belongs to. */
    function Reported(): (n: nat)
      reads this
      ensures n == X.Reported(Model())
    {
      if stack == [] then 0 else stack[|stack| - 1].textLength
    }

    /** A stretch of text added to what is being assembled. */
    method AppendText(value: string, chunk: string) returns (error: Error, out: string)
      ensures error == if Reported() + |value| + |chunk| > limits.maxTextLength then Some(X.SizeExceeded) else None
      ensures error == None ==> out == value + chunk
    {
      out := value;
      if Reported() + |out| + |chunk| > limits.maxTextLength { return Some(X.SizeExceeded), out; }
      out := out + chunk;
      error := None;
    }

    method AppendReference(value: string) returns (error: Error, out: string)
      requires Valid() && pos < |text| && text[pos] == '&'
      modifies this`pos
      ensures Valid() && Yields(X.Reference(old(Left()), value, Reported(), limits), error, out, Left())
    {
      hide X.Numeric, X.Utf8, X.Entity, IndexOf, X.Reported;
      out := value;
      ghost var left := Left();
      var semi := IndexOf(text[pos..], ';', 0);
      if semi.None? { return Some(X.Truncated), out; }
      if semi.value > 32 { return Some(X.Syntax), out; }
      var end := pos + semi.value;
      assert text[end] == ';' && semi.value > 0;
      var body := text[pos + 1..end];
      Slice(text, pos, 1, semi.value);
      Tail(text, pos, semi.value + 1);
      if body == "" { return Some(X.Syntax), out; }
      if body[0] == '#' {
        error, out := AppendNumeric(body, value);
      } else {
        var c := X.Entity(body);
        if c.None? { return Some(X.Syntax), out; }
        error, out := AppendText(value, [c.value]);
      }
      if error == None { pos := end + 1; }
    }

    method AppendNumeric(body: string, value: string) returns (error: Error, out: string)
      requires body != ""
      ensures match X.Numeric(body)
              case None => error == Some(X.Syntax)
              case Some(v) =>
                if |value| + 4 > limits.maxTextLength then error == Some(X.SizeExceeded)
                else if X.Utf8(v).None? then error == Some(X.Syntax)
                else error == None && out == value + X.Utf8(v).value
    {
      hide X.Numeric, X.Utf8;
      out := value;
      var v := ReadNumeric(body);
      if v.None? { return Some(X.Syntax), out; }
      if |out| + 4 > limits.maxTextLength { return Some(X.SizeExceeded), out; }
      var bytes := X.Utf8(v.value);
      if bytes.None? { return Some(X.Syntax), out; }
      out := out + bytes.value;
      error := None;
    }

    /** Over the characters before the next markup, reference or given character. */
    method TakePlain(stop: char) returns (chunk: string)
      requires Valid()
      modifies this`pos
      ensures var k := X.Plain(old(Left()), stop);
              Valid() && pos == old(pos) + k && chunk == old(Left())[..k] && Left() == old(Left())[k..]
    {
      hide X.Plain;
      var end := PlainEnd(text, pos, stop);
      chunk := text[pos..end];
      Slice(text, pos, 0, end - pos);
      Tail(text, pos, end - pos);
      pos := end;
    }

    method ParseValue(quote: char) returns (error: Error, value: string)
      requires Valid()
      modifies this`pos
      ensures Valid() && Yields(X.ParseValue(old(Left()), quote, "", Reported(), limits), error, value, Left())
    {
      hide X.Reference, X.Plain, X.Reported;
      ghost var goal := X.ParseValue(Left(), quote, "", Reported(), limits);
      value := "";
      while true
        invariant Valid() && X.ParseValue(Left(), quote, value, Reported(), limits) == goal
        decreases |text| - pos
      {
        ghost var left, was := Left(), value;
        if Done() { return Some(X.Truncated), value; }
        if text[pos] == quote {
          Tail(text, pos, 1);
          pos := pos + 1;
          return None, value;
        }
        if text[pos] == '<' { return Some(X.Syntax), value; }
        if text[pos] == '&' {
          error, value := AppendReference(value);
        } else {
          var chunk := TakePlain(quote);
          error, value := AppendText(value, chunk);
        }
        if error != None { return; }
      }
    }

    method ParseEquals() returns (error: Error, quote: char)
      requires Valid()
      modifies this`pos
      ensures Valid() && Yields(X.ParseEquals(old(Left())), error, quote, Left())
    {
      hide TrimLeft;
      quote := '"';
      SkipSpace();
      if Done() { return Some(X.Truncated), quote; }
      if text[pos] != '=' { return Some(X.Syntax), quote; }
      Tail(text, pos, 1);
      pos := pos + 1;
      SkipSpace();
      if Done() { return Some(X.Truncated), quote; }
      quote := text[pos];
      if quote != '"' && quote != '\'' { return Some(X.Syntax), quote; }
      Tail(text, pos, 1);
      pos := pos + 1;
      error := None;
    }

    method ParseAttribute() returns (error: Error, attribute: (string, string))
      requires Valid()
      modifies this`pos
      ensures Valid() && Yields(X.ParseAttribute(old(Left()), Reported(), limits), error, attribute, Left())
    {
      hide X.ParseName, X.ParseEquals, X.ParseValue, X.Reported;
      attribute := ("", "");
      var name, quote, value;
      error, name := ParseName();
      if error != None { return; }
      error, quote := ParseEquals();
      if error != None { return; }
      error, value := ParseValue(quote);
      attribute := (X.FullName(name), value);
    }

    method ParseAttributes() returns (error: Error, tag: X.Tag)
      requires Valid()
      modifies this`pos
      ensures Valid() && Yields(X.ParseAttributes(old(Left()), [], Reported(), limits), error, tag, Left())
    {
      hide X.ParseAttribute, TrimLeft, X.Reported;
      ghost var goal := X.ParseAttributes(Left(), [], Reported(), limits);
      tag := X.Tag([], false);
      while true
        invariant Valid() && X.ParseAttributes(Left(), tag.attributes, Reported(), limits) == goal && !tag.empty
        decreases |text| - pos
      {
        TrimLeftSplits(Left());
        SkipSpace();
        ghost var left := Left();
        if Done() { return Some(X.Truncated), tag; }
        if text[pos] == '>' {
          Tail(text, pos, 1);
          pos := pos + 1;
          return None, tag;
        }
        if LookingAt("/>") {
          Tail(text, pos, 2);
          pos := pos + 2;
          return None, tag.(empty := true);
        }
        var attribute;
        error, attribute := ParseAttribute();
        if error != None { return; }
        if |tag.attributes| >= limits.maxAttributes { return Some(X.SizeExceeded), tag; }
        tag := tag.(attributes := tag.attributes + [attribute]);
      }
    }

    // ---- the steps that change the stack or tell the sink ----------------------------------------

    /** The whole of the state and the text that is left are what a step yields; a failing
        step has told the sink nothing. */
    ghost predicate Steps(r: X.Parsed<X.State>, error: Error, was: seq<Event>)
      reads this
    {
      && Valid()
      && match r
         case Fail(e) => error == Some(e) && events == was
         case Got(st, rest) => error == None && Model() == st && Left() == rest
    }

    /** One run of character data, counted against the element it belongs to. */
    method Emit(chunk: string)
      requires stack != []
      modifies this`stack, this`events
      ensures Model() == X.Emit(old(Model()), chunk)
    {
      if chunk == "" { return; }
      var top := stack[|stack| - 1];
      stack := stack[..|stack| - 1] + [top.(textLength := top.textLength + |chunk|)];
      events := events + [Text(chunk)];
    }

    /** The runs and references up to the next markup. */
    method ParseRun() returns (error: Error, out: string)
      requires Valid()
      modifies this`pos
      ensures Valid() && Yields(X.ParseRun(old(Left()), "", Reported(), limits), error, out, Left())
    {
      hide X.Reference, X.Plain, X.Reported;
      ghost var goal := X.ParseRun(Left(), "", Reported(), limits);
      out := "";
      error := None;
      while !Done() && text[pos] != '<'
        invariant Valid() && error == None && X.ParseRun(Left(), out, Reported(), limits) == goal
        decreases |text| - pos
      {
        if text[pos] == '&' {
          error, out := AppendReference(out);
        } else {
          var chunk := TakePlain('<');
          error, out := AppendText(out, chunk);
        }
        if error != None { return; }
      }
    }

    method ParseText() returns (error: Error)
      requires Valid() && pos < |text| && text[pos] != '<' && stack != []
      modifies this
      ensures Steps(X.TextStep(old(Left()), old(Model()), limits), error, old(events))
    {
      hide X.ParseRun, X.Emit, X.Reported;
      var out;
      error, out := ParseRun();
      if error == None { Emit(out); }
    }

    method ParseCdata() returns (error: Error)
      requires Valid() && pos + 9 <= |text| && stack != []
      modifies this
      ensures Steps(X.CdataStep(old(Left()), old(Model()), limits), error, old(events))
    {
      hide X.Find, X.Emit, X.Reported;
      Tail(text, pos, 9);
      pos := pos + 9;
      ghost var left := Left();
      var end := X.Find(text[pos..], "]]>");
      if end.None? { return Some(X.Truncated); }
      var out;
      assert text[pos..pos + end.value] == left[..end.value];
      error, out := AppendText("", text[pos..pos + end.value]);
      if error != None { return; }
      assert out == left[..end.value];
      Emit(out);
      assert left[end.value + 3..] == text[pos + end.value + 3..];
      pos := pos + end.value + 3;
    }

    /** Passes over a comment or an instruction, refuses a declaration, and leaves anything
        else alone. */
    method SkipMisc() returns (error: Error, skipped: bool)
      requires Valid()
      modifies this`pos
      ensures if "<!" <= old(Left()) || "<?" <= old(Left())
              then Steps(X.MiscStep(old(Left()), old(Model())), error, events) && skipped == (error == None)
              else error == None && !skipped && pos == old(pos)
    {
      hide X.Find;
      ghost var left := Left();
      if LookingAt("<!--") {
        assert "<!" <= left;
        Tail(text, pos, 4);
        pos := pos + 4;
        var end := X.Find(text[pos..], "-->");
        if end.None? { return Some(X.Truncated), false; }
        assert text[pos..pos + end.value] == left[4..][..end.value];
        if X.Find(text[pos..pos + end.value], "--").Some? { return Some(X.Syntax), false; }
        assert text[pos + end.value + 3..] == left[4..][end.value + 3..];
        pos := pos + end.value + 3;
        return None, true;
      }
      if LookingAt("<?") {
        Tail(text, pos, 2);
        pos := pos + 2;
        var end := X.Find(text[pos..], "?>");
        if end.None? { return Some(X.Truncated), false; }
        assert text[pos + end.value + 2..] == left[2..][end.value + 2..];
        pos := pos + end.value + 2;
        return None, true;
      }
      if LookingAt("<!") { return Some(X.Unsupported), false; }
      error, skipped := None, false;
    }

    method ParseEndTag() returns (error: Error)
      requires Valid() && pos + 2 <= |text|
      modifies this
      ensures Steps(X.EndStep(old(Left()), old(Model()), limits), error, old(events))
    {
      hide X.ParseName, TrimLeft;
      Tail(text, pos, 2);
      pos := pos + 2;
      var name;
      error, name := ParseName();
      if error != None { return; }
      SkipSpace();
      if Done() { return Some(X.Truncated); }
      if text[pos] != '>' { return Some(X.Syntax); }
      Tail(text, pos, 1);
      pos := pos + 1;
      if stack == [] { return Some(X.Mismatch); }
      if stack[|stack| - 1].name != name.local { return Some(X.Mismatch); }
      events := events + [End(name.prefix, name.local)];
      stack := stack[..|stack| - 1];
    }

    /** The element begins; an empty one ends at once. */
    method OpenElement(name: X.Name, tag: X.Tag)
      modifies this`stack, this`hadRoot, this`events
      ensures Model() == X.Opened(old(Model()), name, tag)
    {
      if stack == [] { hadRoot := true; }
      stack := stack + [X.Open(name.prefix, name.local, 0)];
      events := events + [Start(name.prefix, name.local, tag.attributes)];
      if tag.empty {
        var closing := stack[|stack| - 1];
        events := events + [End(closing.prefix, closing.name)];
        stack := stack[..|stack| - 1];
      }
    }

    method ParseElement() returns (error: Error)
      requires Valid() && pos < |text|
      modifies this
      ensures Steps(X.ElementStep(old(Left()), old(Model()), limits), error, old(events))
    {
      hide X.ParseName, X.ParseAttributes, X.Opened;
      Tail(text, pos, 1);
      pos := pos + 1;
      elements := elements + 1;
      if elements > limits.maxElements { return Some(X.SizeExceeded); }
      if |stack| >= limits.maxDepth { return Some(X.DepthExceeded); }
      if stack == [] && hadRoot { return Some(X.Syntax); }
      var name, tag;
      error, name := ParseName();
      if error != None { return; }
      error, tag := ParseAttributes();
      if error != None { return; }
      OpenElement(name, tag);
    }

    /** One turn of the loop. */
    method Turn() returns (error: Error)
      requires Valid() && pos < |text|
      modifies this
      ensures Steps(X.Step(old(Left()), old(Model()), limits), error, old(events))
    {
      hide X.TextStep, X.CdataStep, X.MiscStep, X.EndStep, X.ElementStep;
      if text[pos] != '<' {
        if stack == [] {
          if !IsSpace(text[pos]) { return Some(X.Syntax); }
          Tail(text, pos, 1);
          pos := pos + 1;
          return None;
        }
        error := ParseText();
        return;
      }
      if LookingAt("<![CDATA[") {
        if stack == [] { return Some(X.Syntax); }
        error := ParseCdata();
        return;
      }
      var skipped;
      error, skipped := SkipMisc();
      if error != None || skipped { return; }
      if LookingAt("</") {
        error := ParseEndTag();
        return;
      }
      if pos + 1 >= |text| { return Some(X.Truncated); }
      error := ParseElement();
    }

    method Run() returns (error: Error)
      requires pos == 0 && Model() == X.State([], 0, false, [])
      modifies this
      ensures X.Outcome(error, events) == X.Parse(text, limits)
    {
      hide X.Step;
      if |text| > limits.maxDocumentSize { return Some(X.SizeExceeded); }
      assert text[0..] == text;
      if X.BOM <= text { pos := 3; }
      ghost var goal := X.Loop(Left(), Model(), limits);
      while !Done()
        invariant Valid() && X.Loop(Left(), Model(), limits) == goal
        decreases |text| - pos
      {
        error := Turn();
        if error != None { return; }
      }
      if stack != [] { return Some(X.Truncated); }
      if !hadRoot { return Some(X.Truncated); }
      error := None;
    }
  }

  /** A document parsed into a tree.  Nothing is handed out from one that failed; from one
      that parsed, the tree whose word was reported, with its character data joined. */
  method ParseDocument(text: string, limits: X.Limits)
    returns (error: Error, root: XmlTree.XmlElement?, ghost t: Tree, ghost nodes: set<XmlTree.XmlElement>)
    ensures error == X.Parse(text, limits).error && (root == null <==> error != None)
    ensures root != null ==> X.Parse(text, limits).events == Word(t) && XmlTree.Is(root, Merge(t), nodes)
  {
    hide X.Loop, Zip, Word, Merge, XmlTree.Is;
    nodes, root := {}, null;
    t := Tree("", "", [], [], "");
    var parser := new Parser(text, limits);
    error := parser.Run();
    if error != None { return; }
    XmlNesting.Accepted(text, limits);
    t := Zip(parser.events).value.root.value;
    var sink := XmlTree.Assemble(parser.events);
    root, nodes := sink.document, sink.closed;
  }
}
