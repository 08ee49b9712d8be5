/** The incremental HTTP/1.1 response parser as a function of what has arrived.

    `Step` is one thing the parser does with the bytes it holds: wait, consume and
    go on, complete, or fail.  `Run` is one call of parse().  The theorems are about
    `Run`: how the input was cut into pieces does not matter, and chunked decoding
    undoes chunked encoding. */
module HttpResponse {
  import opened Prelude
  import opened ByteBuffer
  import opened Text
  import opened HttpNumbers

  datatype Limits = Limits(maxHeaderBlock: nat, maxHeaderCount: nat, maxBody: nat, maxChunkSize: nat)

  datatype State =
    | StatusLine | HeaderBlock | BodyLength | BodyChunkSize | BodyChunkData
    | BodyChunkCrlf | BodyTrailers | BodyUntilClose | Done

  datatype Status = Ok | MalformedResponse | ResponseTooLarge | Disconnected

  datatype Result = NeedMore | Complete | Error

  datatype Response = Response(code: nat, reason: string, headers: seq<(string, string)>, body: string)

  datatype Parser = Parser(
    state: State, status: Status, response: Response,
    headerBytes: nat, bodyRemaining: nat, chunkRemaining: nat, noBody: bool, closed: bool)

  const Fresh := Parser(StatusLine, Ok, Response(0, "", [], ""), 0, 0, 0, false, false)

  // ---- one line ---------------------------------------------------------------------

  datatype Taken =
    | NoLine
    | LineTooLong(headerBytes: nat, rest: string)
    | Line(text: string, headerBytes: nat, rest: string)

  /** Take one line, ended by LF or CRLF, off the input.  Lines count towards the
      header limit, and so does what has arrived of a line without its end. */
  function TakeLine(limits: Limits, headerBytes: nat, input: string): Taken {
    match IndexOf(input, '\n', 0)
    case None => if |input| > limits.maxHeaderBlock then LineTooLong(headerBytes, input) else NoLine
    case Some(lf) =>
      if lf > limits.maxHeaderBlock then LineTooLong(headerBytes, input)
      else
        var end := if lf > 0 && input[lf - 1] == '\r' then lf - 1 else lf;
        var total := headerBytes + lf + 1;
        if total > limits.maxHeaderBlock then LineTooLong(total, input[lf + 1..])
        else Line(input[..end], total, input[lf + 1..])
  }

  // ---- what a line means in each state -------------------------------------------------

  datatype Verdict = Next(p: Parser) | Whole(p: Parser) | Bad(why: Status)

  function SkipSpaces(s: string, from: nat): (i: nat)
    requires from <= |s|
    ensures from <= i <= |s|
    decreases |s| - from
  {
    if from < |s| && s[from] == ' ' then SkipSpaces(s, from + 1) else from
  }

  function OnStatusLine(p: Parser, line: string): Verdict {
    if !IStartsWith(line, "HTTP/") then Bad(MalformedResponse)
    else match IndexOf(line, ' ', 0)
      case None => Bad(MalformedResponse)
      case Some(first) =>
        if first < 5 || (line[5..first] != "1.0" && line[5..first] != "1.1") then Bad(MalformedResponse)
        else
          var after := SkipSpaces(line, first);
          var second := IndexOf(line, ' ', after);
          var code := if second.None? then line[after..] else line[after..second.value];
          var value := ParseSize(code);
          if |code| != 3 || value.None? || value.value < 100 || value.value > 599 then Bad(MalformedResponse)
          else
            var reason := if second.None? then p.response.reason else Trim(line[second.value + 1..]);
            Next(p.(state := HeaderBlock, response := p.response.(code := value.value, reason := reason)))
  }

  /** The first header of a name. */
  function Get(headers: seq<(string, string)>, name: string): Option<string> {
    if headers == [] then None
    else if IEquals(headers[0].0, name) then Some(headers[0].1)
    else Get(headers[1..], name)
  }

  datatype Lengths = Absent | Agreed(value: string) | Conflict

  /** The Content-Length headers together: none, in agreement, or in conflict. */
  function ContentLength(headers: seq<(string, string)>): Lengths {
    if headers == [] then Absent
    else
      var last := headers[|headers| - 1];
      var before := ContentLength(headers[..|headers| - 1]);
      if !IEquals(last.0, "Content-Length") || before == Conflict then before
      else if before.Agreed? && Trim(before.value) != Trim(last.1) then Conflict
      else Agreed(last.1)
  }

  /** How the body is framed, decided at the end of the header block. */
  function ChooseBodyFraming(limits: Limits, p: Parser): Verdict {
    var code, encoding := p.response.code, Get(p.response.headers, "Transfer-Encoding");
    if p.noBody || 100 <= code < 200 || code == 204 || code == 304 then Whole(p.(state := Done))
    else if encoding.Some? && IEquals(Trim(encoding.value), "chunked") then Next(p.(state := BodyChunkSize))
    else if encoding.Some? && !IEquals(Trim(encoding.value), "identity") then Bad(MalformedResponse)
    else match ContentLength(p.response.headers)
      case Absent => Next(p.(state := BodyUntilClose))
      case Conflict => Bad(MalformedResponse)
      case Agreed(text) =>
        match ParseSize(Trim(text))
        case None => Bad(MalformedResponse)
        case Some(length) =>
          if length > limits.maxBody then Bad(ResponseTooLarge)
          else if length == 0 then Whole(p.(state := Done, bodyRemaining := 0))
          else Next(p.(state := BodyLength, bodyRemaining := length))
  }

  function OnHeader(limits: Limits, p: Parser, line: string): Verdict {
    if line == "" then ChooseBodyFraming(limits, p)
    else if line[0] == ' ' || line[0] == '\t' then Bad(MalformedResponse)
    else match IndexOf(line, ':', 0)
      case None => Bad(MalformedResponse)
      case Some(colon) =>
        var name, value := line[..colon], line[colon + 1..];
        if name == "" || Trim(name) != name then Bad(MalformedResponse)
        else if |p.response.headers| >= limits.maxHeaderCount then Bad(ResponseTooLarge)
        else Next(p.(response := p.response.(headers := p.response.headers + [(name, Trim(value))])))
  }

  /** A chunk of `size` may follow `n` bytes of body, with the sum taken in 64 bits. */
  predicate HasRoom(limits: Limits, n: nat, size: nat) {
    size <= limits.maxChunkSize && (n + size) % (SIZE_MAX + 1) <= limits.maxBody
  }

  function OnChunkSize(limits: Limits, p: Parser, line: string): Verdict {
    match ParseChunkSize(line)
    case None => Bad(MalformedResponse)
    case Some(size) =>
      if !HasRoom(limits, |p.response.body|, size) then Bad(ResponseTooLarge)
      else if size == 0 then Next(p.(state := BodyTrailers))
      else Next(p.(state := BodyChunkData, chunkRemaining := size))
  }

  function OnLine(limits: Limits, p: Parser, line: string): Verdict {
    match p.state
    case StatusLine => OnStatusLine(p, line)
    case HeaderBlock => OnHeader(limits, p, line)
    case BodyChunkSize => OnChunkSize(limits, p, line)
    case BodyChunkCrlf => if line == "" then Next(p.(state := BodyChunkSize)) else Bad(MalformedResponse)
    case _ => if line == "" then Whole(p.(state := Done)) else Next(p)
  }

  // ---- one step, and one call ------------------------------------------------------------

  datatype Outcome =
    | Wait
    | Advance(p: Parser, rest: string)
    | Finish(p: Parser, rest: string)
    | Fail(p: Parser, rest: string)

  predicate ReadsLines(s: State) {
    s in {StatusLine, HeaderBlock, BodyChunkSize, BodyChunkCrlf, BodyTrailers}
  }

  function LineStep(limits: Limits, p: Parser, input: string): Outcome {
    match TakeLine(limits, p.headerBytes, input)
    case NoLine => Wait
    case LineTooLong(n, rest) => Fail(p.(headerBytes := n, status := ResponseTooLarge), rest)
    case Line(text, n, rest) =>
      var q := p.(headerBytes := n);
      match OnLine(limits, q, text)
      case Next(r) => Advance(r, rest)
      case Whole(r) => Finish(r, rest)
      case Bad(why) => Fail(q.(status := why), rest)
  }

  function Took(p: Parser, data: string): Parser {
    p.(response := p.response.(body := p.response.body + data))
  }

  function LengthStep(p: Parser, input: string): Outcome {
    if input == "" then Wait
    else
      var take := Least(|input|, p.bodyRemaining);
      var q := Took(p, input[..take]).(bodyRemaining := p.bodyRemaining - take);
      if q.bodyRemaining > 0 then Advance(q, input[take..]) else Finish(q.(state := Done), input[take..])
  }

  function ChunkStep(p: Parser, input: string): Outcome {
    if input == "" then Wait
    else
      var take := Least(|input|, p.chunkRemaining);
      var q := Took(p, input[..take]).(chunkRemaining := p.chunkRemaining - take);
      Advance(if q.chunkRemaining > 0 then q else q.(state := BodyChunkCrlf), input[take..])
  }

  function CloseStep(limits: Limits, p: Parser, input: string): Outcome {
    if input != "" then
      if |p.response.body| + |input| > limits.maxBody then Fail(p.(status := ResponseTooLarge), input)
      else Advance(Took(p, input), "")
    else if p.closed then Finish(p.(state := Done), "")
    else Wait
  }

  function Step(limits: Limits, p: Parser, input: string): Outcome {
    if ReadsLines(p.state) then LineStep(limits, p, input)
    else match p.state
      case BodyLength => LengthStep(p, input)
      case BodyChunkData => ChunkStep(p, input)
      case BodyUntilClose => CloseStep(limits, p, input)
      case _ => Finish(p, input)
  }

  /** The peer has not been reported closed, and a counted body has bytes to come. */
  predicate Sound(p: Parser) {
    && !p.closed
    && (p.state == BodyLength ==> p.bodyRemaining > 0)
    && (p.state == BodyChunkData ==> p.chunkRemaining > 0)
  }

  /** Counts down whenever a step goes on. */
  function Rank(p: Parser, input: string): nat {
    2 * |input| + if p.state == BodyChunkData then 1 else 0
  }

  lemma OnLineKeeps(limits: Limits, p: Parser, line: string)
    requires Sound(p)
    ensures var v := OnLine(limits, p, line);
            && (v.Next? ==> v.p.status == p.status && Sound(v.p))
            && (v.Whole? ==> v.p.status == p.status && v.p.state == Done && !v.p.closed)
  {
  }

  lemma OnLineStatus(limits: Limits, p: Parser, line: string)
    ensures var v := OnLine(limits, p, line); v.Next? ==> v.p.status == p.status
  {
  }

  lemma StepRanks(limits: Limits, p: Parser, input: string)
    ensures var o := Step(limits, p, input);
            o.Advance? ==> Rank(o.p, o.rest) < Rank(p, input) && o.p.status == p.status
    ensures var o := Step(limits, p, input); !o.Wait? ==> |o.rest| <= |input|
  {
    hide OnLine;
    if ReadsLines(p.state) {
      match TakeLine(limits, p.headerBytes, input)
      case Line(text, n, rest) => OnLineStatus(limits, p.(headerBytes := n), text);
      case _ =>
    }
  }

  datatype Ran = Ran(p: Parser, rest: string, result: Result)

  function Loop(limits: Limits, p: Parser, input: string): Ran
    decreases Rank(p, input)
  {
    StepRanks(limits, p, input);
    match Step(limits, p, input)
    case Wait => Ran(p, input, NeedMore)
    case Advance(q, rest) => Loop(limits, q, rest)
    case Finish(q, rest) => Ran(q, rest, Complete)
    case Fail(q, rest) => Ran(q, rest, Error)
  }

  /** One call of parse() with `input` in the buffer. */
  function Run(limits: Limits, p: Parser, input: string): Ran {
    if p.status != Ok then Ran(p, input, Error) else Loop(limits, p, input)
  }

  /** The peer has closed. */
  function Close(p: Parser): (Parser, Result) {
    if p.status != Ok then (p, Error)
    else if p.state == Done then (p, Complete)
    else if p.state == BodyUntilClose then (p.(closed := true, state := Done), Complete)
    else (p.(closed := true, status := Disconnected), Error)
  }

  // ---- the pieces do not matter ------------------------------------------------------------

  /** The same result kind and status; and unless that is an error, the same parser
      and the same unread bytes. */
  predicate Alike(a: Ran, b: Ran) {
    && a.result == b.result && a.p.status == b.p.status
    && (a.result != Error ==> a == b)
  }

  lemma {:induction false} IndexOfPrefix(x: string, y: string, c: char, from: nat)
    ensures IndexOf(x, c, from).Some? ==> IndexOf(x + y, c, from) == IndexOf(x, c, from)
    decreases |x| - from
  {
    if from < |x| && x[from] != c { IndexOfPrefix(x, y, c, from + 1); }
  }

  lemma TakeLineSplit(limits: Limits, n: nat, x: string, y: string)
    ensures match TakeLine(limits, n, x)
            case NoLine => true
            case LineTooLong(_, _) => TakeLine(limits, n, x + y).LineTooLong?
            case Line(text, m, rest) => TakeLine(limits, n, x + y) == Line(text, m, rest + y)
  {
    IndexOfPrefix(x, y, '\n', 0);
    match IndexOf(x, '\n', 0)
    case Some(lf) =>
      assert (x + y)[lf + 1..] == x[lf + 1..] + y;
      assert forall end :: 0 <= end <= lf ==> (x + y)[..end] == x[..end];
    case None =>
      var r := IndexOf(x + y, '\n', 0);
      assert r.Some? ==> r.value >= |x|;
  }

  /** How a step on `x` relates to the step on `x + y`. */
  ghost predicate Splits(limits: Limits, p: Parser, x: string, y: string) {
    match Step(limits, p, x)
    case Wait => true
    case Finish(q, rest) => Step(limits, p, x + y) == Finish(q, rest + y)
    case Fail(q, _) => Step(limits, p, x + y).Fail? && Step(limits, p, x + y).p.status == q.status
    case Advance(q, rest) =>
      && Sound(q)
      && (Step(limits, p, x + y) == Advance(q, rest + y)
          || (rest == "" && Step(limits, q, "").Wait? && (y == "" || JoinSteps(Step(limits, p, x + y), Step(limits, q, y)))))
  }

  ghost predicate JoinSteps(a: Outcome, b: Outcome) {
    (a == b && !a.Wait?) || (a.Fail? && b.Fail? && a.p.status == b.p.status)
  }

  lemma LineSplits(limits: Limits, p: Parser, x: string, y: string)
    requires Sound(p) && ReadsLines(p.state)
    ensures Splits(limits, p, x, y)
  {
    hide OnLine, TakeLine;
    TakeLineSplit(limits, p.headerBytes, x, y);
    match TakeLine(limits, p.headerBytes, x)
    case Line(text, n, rest) => OnLineKeeps(limits, p.(headerBytes := n), text);
    case _ =>
  }

  /** A counted body of which `x` is a part, or more than all. */
  lemma TakeSplit(x: string, y: string, remaining: nat)
    ensures |x| >= remaining ==> (x + y)[..remaining] == x[..remaining] && (x + y)[remaining..] == x[remaining..] + y
    ensures |x| < remaining ==>
              var t := Least(|x + y|, remaining);
              var u := Least(|y|, remaining - |x|);
              t == |x| + u && (x + y)[..t] == x + y[..u] && (x + y)[t..] == y[u..]
  {
  }

  lemma LengthSplits(limits: Limits, p: Parser, x: string, y: string)
    requires Sound(p) && p.state == BodyLength
    ensures Splits(limits, p, x, y)
  {
    TakeSplit(x, y, p.bodyRemaining);
    if x != "" && |x| < p.bodyRemaining && y != "" {
      var u := Least(|y|, p.bodyRemaining - |x|);
      assert x[..|x|] == x;
      assert (p.response.body + x) + y[..u] == p.response.body + (x + y[..u]);
    }
  }

  lemma ChunkSplits(limits: Limits, p: Parser, x: string, y: string)
    requires Sound(p) && p.state == BodyChunkData
    ensures Splits(limits, p, x, y)
  {
    TakeSplit(x, y, p.chunkRemaining);
    if x != "" && |x| < p.chunkRemaining && y != "" {
      var u := Least(|y|, p.chunkRemaining - |x|);
      assert x[..|x|] == x;
      assert (p.response.body + x) + y[..u] == p.response.body + (x + y[..u]);
    }
  }

  lemma CloseSplits(limits: Limits, p: Parser, x: string, y: string)
    requires Sound(p) && p.state == BodyUntilClose
    ensures Splits(limits, p, x, y)
  {
    assert (p.response.body + x) + y == p.response.body + (x + y);
  }

  lemma StepSplits(limits: Limits, p: Parser, x: string, y: string)
    requires Sound(p)
    ensures Splits(limits, p, x, y)
  {
    hide LineStep, LengthStep, ChunkStep, CloseStep;
    if ReadsLines(p.state) {
      LineSplits(limits, p, x, y);
    } else if p.state == BodyLength {
      LengthSplits(limits, p, x, y);
    } else if p.state == BodyChunkData {
      ChunkSplits(limits, p, x, y);
    } else if p.state == BodyUntilClose {
      CloseSplits(limits, p, x, y);
    }
  }

  lemma LoopStep(limits: Limits, p: Parser, input: string)
    ensures var o, r := Step(limits, p, input), Loop(limits, p, input);
            && (o.Wait? ==> r == Ran(p, input, NeedMore))
            && (o.Advance? ==> r == Loop(limits, o.p, o.rest))
            && (o.Finish? ==> r == Ran(o.p, o.rest, Complete))
            && (o.Fail? ==> r == Ran(o.p, o.rest, Error))
  {
  }

  /** Parsing `x` first and then what it left together with `y` is parsing `x + y`. */
  lemma {:induction false} LoopSplit(limits: Limits, p: Parser, x: string, y: string)
    requires Sound(p)
    ensures var a := Loop(limits, p, x);
            match a.result
            case NeedMore => Sound(a.p) && a.p.status == p.status
                             && Alike(Loop(limits, p, x + y), Loop(limits, a.p, a.rest + y))
            case Complete => Loop(limits, p, x + y) == Ran(a.p, a.rest + y, Complete)
            case Error => Alike(Loop(limits, p, x + y), a)
    decreases Rank(p, x)
  {
    hide Loop, Step;
    StepSplits(limits, p, x, y);
    StepRanks(limits, p, x);
    LoopStep(limits, p, x);
    LoopStep(limits, p, x + y);
    match Step(limits, p, x)
    case Advance(q, rest) =>
      LoopSplit(limits, q, rest, y);
      if Step(limits, p, x + y) != Advance(q, rest + y) {
        LoopStep(limits, q, "");
        LoopStep(limits, q, y);
        assert rest + y == y;
        assert y == "" ==> x + y == x;
      }
    case _ =>
  }

  // ---- a whole conversation --------------------------------------------------------------

  function Concat(pieces: seq<string>): string {
    if pieces == [] then "" else Concat(pieces[..|pieces| - 1]) + pieces[|pieces| - 1]
  }

  lemma {:induction false} ConcatFront(pieces: seq<string>)
    requires pieces != []
    ensures Concat(pieces) == pieces[0] + Concat(pieces[1..])
    decreases |pieces|
  {
    var last := |pieces| - 1;
    if last == 0 {
      assert pieces[..0] == [] && pieces[1..] == [];
    } else {
      ConcatFront(pieces[..last]);
      assert pieces[..last][1..] == pieces[1..][..last - 1];
      Assoc(pieces[0], Concat(pieces[1..][..last - 1]), pieces[last]);
    }
  }

  /** parse() called after each piece is appended to what the last call left. */
  function Feed(limits: Limits, p: Parser, pieces: seq<string>): Ran
    requires |pieces| >= 1
  {
    var last := |pieces| - 1;
    if last == 0 then Run(limits, p, pieces[0])
    else
      var r := Feed(limits, p, pieces[..last]);
      Run(limits, r.p, r.rest + pieces[last])
  }

  /** However the input is cut into pieces, the result, the status, the response and
      the unread bytes are those of one call on the whole. */
  lemma {:induction false} FragmentationIndependent(limits: Limits, p: Parser, pieces: seq<string>)
    requires |pieces| >= 1 && Sound(p)
    ensures Alike(Feed(limits, p, pieces), Run(limits, p, Concat(pieces)))
    decreases |pieces|
  {
    hide Loop;
    var last := |pieces| - 1;
    var init, y := pieces[..last], pieces[last];
    if last == 0 {
      assert Concat(init) == "" && Concat(pieces) == y;
    } else {
      FragmentationIndependent(limits, p, init);
      RunSplit(limits, p, Concat(init), y);
      RunResult(limits, p, Concat(init));
    }
  }

  lemma {:induction false} LoopResult(limits: Limits, p: Parser, x: string)
    requires p.status == Ok
    ensures var r := Loop(limits, p, x);
            && (r.result == Complete ==> r.p.state == Done)
            && (r.p.status == Ok <==> r.result != Error)
    decreases Rank(p, x)
  {
    hide Loop;
    StepRanks(limits, p, x);
    LoopStep(limits, p, x);
    StepResult(limits, p, x);
    var o := Step(limits, p, x);
    if o.Advance? { LoopResult(limits, o.p, o.rest); }
  }

  lemma StepResult(limits: Limits, p: Parser, x: string)
    requires p.status == Ok
    ensures var o := Step(limits, p, x);
            && (o.Finish? ==> o.p.state == Done && o.p.status == Ok)
            && (o.Fail? ==> o.p.status != Ok)
  {
    hide TakeLine;
    if ReadsLines(p.state) {
      match TakeLine(limits, p.headerBytes, x)
      case Line(text, n, rest) => OnLineResult(limits, p.(headerBytes := n), text);
      case _ =>
    }
  }

  lemma OnLineResult(limits: Limits, p: Parser, line: string)
    ensures var v := OnLine(limits, p, line);
            && (v.Whole? ==> v.p.status == p.status && v.p.state == Done)
            && (v.Bad? ==> v.why != Ok)
  {
  }

  lemma RunResult(limits: Limits, p: Parser, x: string)
    ensures var r := Run(limits, p, x);
            && (r.result == Complete ==> r.p.state == Done)
            && (r.p.status == Ok <==> r.result != Error)
  {
    if p.status == Ok { LoopResult(limits, p, x); }
  }

  lemma RunDone(limits: Limits, p: Parser, x: string)
    requires p.state == Done && p.status == Ok
    ensures Run(limits, p, x) == Ran(p, x, Complete)
  {
  }

  lemma RunSplit(limits: Limits, p: Parser, x: string, y: string)
    requires Sound(p)
    ensures var a := Run(limits, p, x);
            Alike(Run(limits, p, x + y), Run(limits, a.p, a.rest + y))
  {
    hide Loop, Step;
    var a := Run(limits, p, x);
    RunResult(limits, p, x);
    if p.status == Ok {
      LoopSplit(limits, p, x, y);
      if a.result == Complete { RunDone(limits, a.p, a.rest + y); }
    }
  }
}
