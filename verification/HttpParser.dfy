/** The parser object over a buffer, proved against the parser as a function. */
module HttpParser {
  import opened Prelude
  import opened ByteBuffer
  import opened Text
  import opened HttpNumbers
  import opened HttpResponse

  /** What one state function may do: nothing, some steps, or the last one. */
  ghost predicate Performs(limits: Limits, p: Parser, x: string, q: Parser, y: string, r: Result) {
    && p.status == Ok
    && (r != NeedMore ==> Loop(limits, p, x) == Ran(q, y, r))
    && (r == NeedMore ==>
          && q.status == Ok
          && Loop(limits, p, x) == Loop(limits, q, y)
          && (Rank(q, y) < Rank(p, x) || (q == p && y == x && Step(limits, p, x) == Wait)))
  }

  /** A single step is such a thing. */
  ghost predicate Performed(o: Outcome, p: Parser, x: string, q: Parser, y: string, r: Result) {
    match o
    case Wait => q == p && y == x && r == NeedMore
    case Advance(p', x') => q == p' && y == x' && r == NeedMore
    case Finish(p', x') => q == p' && y == x' && r == Complete
    case Fail(p', x') => q == p' && y == x' && r == Error
  }

  lemma StepPerforms(limits: Limits, p: Parser, x: string, q: Parser, y: string, r: Result)
    requires p.status == Ok && Performed(Step(limits, p, x), p, x, q, y, r)
    ensures Performs(limits, p, x, q, y, r)
  {
    hide Step, Loop;
    LoopStep(limits, p, x);
    StepRanks(limits, p, x);
  }

  lemma ThenPerforms(limits: Limits, p: Parser, x: string, q: Parser, y: string, q': Parser, y': string, r: Result)
    requires Performs(limits, p, x, q, y, NeedMore) && Performs(limits, q, y, q', y', r)
    ensures Performs(limits, p, x, q', y', r)
  {
    hide Step, Loop;
  }

  class ResponseParser {
    const limits: Limits
    var state: State
    var status: Status
    var response: Response
    var headerBytes: nat
    var bodyRemaining: nat
    var chunkRemaining: nat
    var noBody: bool
    var closed: bool

    function Model(): Parser
      reads this
    {
      Parser(state, status, response, headerBytes, bodyRemaining, chunkRemaining, noBody, closed)
    }

    constructor (limits: Limits)
      ensures this.limits == limits && Model() == Fresh
    {
      this.limits := limits;
      state, status, response := StatusLine, Ok, Response(0, "", [], "");
      headerBytes, bodyRemaining, chunkRemaining, noBody, closed := 0, 0, 0, false, false;
    }

    method Reset()
      modifies this
      ensures Model() == Fresh
    {
      state, status, response := StatusLine, Ok, Response(0, "", [], "");
      headerBytes, bodyRemaining, chunkRemaining, noBody, closed := 0, 0, 0, false, false;
    }

    method ExpectNoBody()
      modifies this`noBody
      ensures Model() == old(Model()).(noBody := true)
    {
      noBody := true;
    }

    method TakeLine(input: Buffer) returns (found: bool, line: string, tooLong: bool)
      requires input.Valid()
      modifies this`headerBytes, input, input.buf
      ensures input.Valid() && input.buf == old(input.buf)
      ensures match HttpResponse.TakeLine(limits, old(headerBytes), old(input.Contents()))
              case NoLine => !found && !tooLong && Model() == old(Model()) && input.Contents() == old(input.Contents())
              case LineTooLong(n, rest) => tooLong && Model() == old(Model()).(headerBytes := n) && input.Contents() == rest
              case Line(text, n, rest) =>
                found && !tooLong && line == text && Model() == old(Model()).(headerBytes := n) && input.Contents() == rest
    {
      hide IndexOf;
      found, line, tooLong := false, "", false;
      var lf := input.Find('\n', 0);
      var size := input.Size();
      if lf.None? {
        tooLong := size > limits.maxHeaderBlock;
        return;
      }
      if lf.value > limits.maxHeaderBlock {
        tooLong := true;
        return;
      }
      line := CutLine(input, lf.value);
      headerBytes := headerBytes + lf.value + 1;
      tooLong := headerBytes > limits.maxHeaderBlock;
      found := true;
    }

    /** Take the line off that ends with the line feed at `lf`. */
    method CutLine(input: Buffer, lf: nat) returns (line: string)
      requires input.Valid() && lf < |input.Contents()|
      modifies input, input.buf
      ensures input.Valid() && input.buf == old(input.buf)
      ensures var x := old(input.Contents());
              line == x[..if lf > 0 && x[lf - 1] == '\r' then lf - 1 else lf] && input.Contents() == x[lf + 1..]
    {
      var end := lf;
      if end > 0 && input.At(end - 1) == '\r' { end := end - 1; }
      line := input.CopyRange(0, end);
      input.Remove(lf + 1);
    }

    /** The start of every state that reads a line: the line, or how the call ends. */
    method NextLine(input: Buffer) returns (line: Option<string>, r: Result)
      requires input.Valid() && status == Ok && ReadsLines(state)
      modifies this`headerBytes, this`status, input, input.buf
      ensures input.Valid() && input.buf == old(input.buf)
      ensures match HttpResponse.TakeLine(limits, old(headerBytes), old(input.Contents()))
              case Line(text, n, rest) =>
                line == Some(text) && Model() == old(Model()).(headerBytes := n) && input.Contents() == rest
              case _ => line.None? && Performed(LineStep(limits, old(Model()), old(input.Contents())),
                                                old(Model()), old(input.Contents()), Model(), input.Contents(), r)
    {
      hide HttpResponse.TakeLine, OnLine;
      var found, text, tooLong := TakeLine(input);
      line, r := None, NeedMore;
      if tooLong {
        status, r := ResponseTooLarge, Error;
      } else if found {
        line := Some(text);
      }
    }

    method ParseStatusLine(input: Buffer) returns (r: Result)
      requires input.Valid() && status == Ok && state == StatusLine
      modifies this, input, input.buf
      ensures input.Valid() && input.buf == old(input.buf)
      ensures Performs(limits, old(Model()), old(input.Contents()), Model(), input.Contents(), r)
    {
      hide HttpResponse.TakeLine, Loop, Performs, OnStatusLine;
      ghost var p, x := Model(), input.Contents();
      var line;
      line, r := NextLine(input);
      if line.Some? { r := ReadStatusLine(line.value); }
      StepPerforms(limits, p, x, Model(), input.Contents(), r);
    }

    method ReadStatusLine(line: string) returns (r: Result)
      modifies this`state, this`status, this`response
      ensures match OnStatusLine(old(Model()), line)
              case Next(q) => r == NeedMore && Model() == q
              case Whole(_) => false
              case Bad(why) => r == Error && Model() == old(Model()).(status := why)
    {
      hide Read;
      if !IStartsWith(line, "HTTP/") { status := MalformedResponse; return Error; }
      var first := IndexOf(line, ' ', 0);
      if first.None? || first.value < 5 { status := MalformedResponse; return Error; }
      var version := line[5..first.value];
      if version != "1.0" && version != "1.1" { status := MalformedResponse; return Error; }
      var after := first.value;
      while after < |line| && line[after] == ' '
        invariant after <= |line| && SkipSpaces(line, first.value) == SkipSpaces(line, after)
      {
        after := after + 1;
      }
      var second := IndexOf(line, ' ', after);
      var code := if second.None? then line[after..] else line[after..second.value];
      if |code| != 3 { status := MalformedResponse; return Error; }
      var value := ReadLoop(code, 10);
      if value.None? || value.value < 100 || value.value > 599 { status := MalformedResponse; return Error; }
      response := response.(code := value.value);
      if second.Some? {
        var reason := TrimIndices(line[second.value + 1..]);
        response := response.(reason := reason);
      }
      state := HeaderBlock;
      return NeedMore;
    }

    /** The Content-Length headers: whether there are any, whether two disagree, and
        the last of them. */
    method SeenLength() returns (lengths: Lengths)
      ensures lengths == ContentLength(response.headers)
    {
      lengths := Absent;
      var i := 0;
      while i < |response.headers|
        invariant i <= |response.headers| && lengths == ContentLength(response.headers[..i]) && lengths != Conflict
      {
        var (key, value) := response.headers[i];
        assert response.headers[..i + 1][..i] == response.headers[..i];
        if IEquals(key, "Content-Length") {
          if lengths.Agreed? && Trim(lengths.value) != Trim(value) {
            ConflictStays(response.headers, i + 1);
            return Conflict;
          }
          lengths := Agreed(value);
        }
        i := i + 1;
      }
      assert response.headers[..i] == response.headers;
    }

    method ReadBodyFraming() returns (r: Result)
      modifies this`state, this`status, this`bodyRemaining
      ensures match ChooseBodyFraming(limits, old(Model()))
              case Next(q) => r == NeedMore && Model() == q
              case Whole(q) => r == Complete && Model() == q
              case Bad(why) => r == Error && Model() == old(Model()).(status := why)
    {
      hide Get, ContentLength, Read, Trim, IEquals;
      var code := response.code;
      if noBody || 100 <= code < 200 || code == 204 || code == 304 {
        state := Done;
        return Complete;
      }
      var encoding := Get(response.headers, "Transfer-Encoding");
      if encoding.Some? {
        if IEquals(Trim(encoding.value), "chunked") {
          state := BodyChunkSize;
          return NeedMore;
        }
        if !IEquals(Trim(encoding.value), "identity") { status := MalformedResponse; return Error; }
      }
      var lengths := SeenLength();
      if lengths == Conflict { status := MalformedResponse; return Error; }
      if lengths == Absent {
        state := BodyUntilClose;
        return NeedMore;
      }
      var text := TrimIndices(lengths.value);
      if text == "" { status := MalformedResponse; return Error; }
      var length := ReadLoop(text, 10);
      if length.None? { status := MalformedResponse; return Error; }
      if length.value > limits.maxBody { status := ResponseTooLarge; return Error; }
      bodyRemaining := length.value;
      if bodyRemaining == 0 {
        state := Done;
        return Complete;
      }
      state := BodyLength;
      return NeedMore;
    }

    /** One header line; an empty one ends the block. */
    method ReadHeader(line: string) returns (r: Result)
      modifies this`state, this`status, this`response, this`bodyRemaining
      ensures match OnHeader(limits, old(Model()), line)
              case Next(q) => r == NeedMore && Model() == q
              case Whole(q) => r == Complete && Model() == q
              case Bad(why) => r == Error && Model() == old(Model()).(status := why)
      ensures line != "" ==> r == Error || (r == NeedMore && state == old(state) && status == old(status))
    {
      hide ChooseBodyFraming, Trim;
      if line == "" {
        r := ReadBodyFraming();
        return;
      }
      if line[0] == ' ' || line[0] == '\t' { status := MalformedResponse; return Error; }
      var colon := IndexOf(line, ':', 0);
      if colon.None? { status := MalformedResponse; return Error; }
      var name := line[..colon.value];
      var trimmed := TrimIndices(name);
      if name == "" || trimmed != name { status := MalformedResponse; return Error; }
      if |response.headers| >= limits.maxHeaderCount { status := ResponseTooLarge; return Error; }
      var value := TrimIndices(line[colon.value + 1..]);
      response := response.(headers := response.headers + [(name, value)]);
      return NeedMore;
    }

    method ParseHeaderBlock(input: Buffer) returns (r: Result)
      requires input.Valid() && status == Ok && state == HeaderBlock
      modifies this, input, input.buf
      ensures input.Valid() && input.buf == old(input.buf)
      ensures Performs(limits, old(Model()), old(input.Contents()), Model(), input.Contents(), r)
    {
      hide HttpResponse.TakeLine, Loop, OnHeader, Performs;
      ghost var p, x := Model(), input.Contents();
      ghost var begun := false;
      while true
        invariant input.Valid() && input.buf == old(input.buf) && status == Ok && state == HeaderBlock
        invariant if begun then Performs(limits, p, x, Model(), input.Contents(), NeedMore) else p == Model() && x == input.Contents()
        decreases |input.Contents()|
      {
        ghost var q, y := Model(), input.Contents();
        TakenShorter(limits, headerBytes, y);
        var line;
        line, r := NextLine(input);
        if line.Some? { r := ReadHeader(line.value); }
        StepPerforms(limits, q, y, Model(), input.Contents(), r);
        if begun { ThenPerforms(limits, p, x, q, y, Model(), input.Contents(), r); }
        begun := true;
        if line.None? || line.value == "" || r == Error { return; }
      }
    }

    method ParseTrailers(input: Buffer) returns (r: Result)
      requires input.Valid() && status == Ok && state == BodyTrailers
      modifies this, input, input.buf
      ensures input.Valid() && input.buf == old(input.buf)
      ensures Performs(limits, old(Model()), old(input.Contents()), Model(), input.Contents(), r)
    {
      hide HttpResponse.TakeLine, Loop, Performs;
      ghost var p, x := Model(), input.Contents();
      ghost var begun := false;
      while true
        invariant input.Valid() && input.buf == old(input.buf) && status == Ok && state == BodyTrailers
        invariant if begun then Performs(limits, p, x, Model(), input.Contents(), NeedMore) else p == Model() && x == input.Contents()
        decreases |input.Contents()|
      {
        ghost var q, y := Model(), input.Contents();
        TakenShorter(limits, headerBytes, y);
        var line;
        line, r := NextLine(input);
        if line == Some("") {
          state, r := Done, Complete;
        } else if line.Some? {
          r := NeedMore;
        }
        StepPerforms(limits, q, y, Model(), input.Contents(), r);
        if begun { ThenPerforms(limits, p, x, q, y, Model(), input.Contents(), r); }
        begun := true;
        if line.None? || line.value == "" { return; }
      }
    }

    method ReadChunkSize(line: string) returns (r: Result)
      modifies this`state, this`status, this`chunkRemaining
      ensures match OnChunkSize(limits, old(Model()), line)
              case Next(q) => r == NeedMore && Model() == q
              case Whole(q) => false
              case Bad(why) => r == Error && Model() == old(Model()).(status := why)
    {
      hide Read, Trim;
      var semi := IndexOf(line, ';', 0);
      var text := TrimIndices(if semi.None? then line else line[..semi.value]);
      if text == "" { status := MalformedResponse; return Error; }
      var size := ReadLoop(text, 16);
      if size.None? { status := MalformedResponse; return Error; }
      if size.value > limits.maxChunkSize { status := ResponseTooLarge; return Error; }
      if (|response.body| + size.value) % (SIZE_MAX + 1) > limits.maxBody { status := ResponseTooLarge; return Error; }
      if size.value == 0 {
        state := BodyTrailers;
        return NeedMore;
      }
      chunkRemaining := size.value;
      state := BodyChunkData;
      return NeedMore;
    }

    method ParseChunkSize(input: Buffer) returns (r: Result)
      requires input.Valid() && status == Ok && state == BodyChunkSize
      modifies this, input, input.buf
      ensures input.Valid() && input.buf == old(input.buf)
      ensures Performs(limits, old(Model()), old(input.Contents()), Model(), input.Contents(), r)
    {
      hide HttpResponse.TakeLine, Loop, Performs, OnChunkSize;
      ghost var p, x := Model(), input.Contents();
      var line;
      line, r := NextLine(input);
      if line.Some? { r := ReadChunkSize(line.value); }
      StepPerforms(limits, p, x, Model(), input.Contents(), r);
    }

    method ParseChunkCrlf(input: Buffer) returns (r: Result)
      requires input.Valid() && status == Ok && state == BodyChunkCrlf
      modifies this, input, input.buf
      ensures input.Valid() && input.buf == old(input.buf)
      ensures Performs(limits, old(Model()), old(input.Contents()), Model(), input.Contents(), r)
    {
      hide HttpResponse.TakeLine, Loop, Performs;
      ghost var p, x := Model(), input.Contents();
      var line;
      line, r := NextLine(input);
      if line.Some? {
        if line.value != "" {
          status, r := MalformedResponse, Error;
        } else {
          state, r := BodyChunkSize, NeedMore;
        }
      }
      StepPerforms(limits, p, x, Model(), input.Contents(), r);
    }

    /** Move up to `wanted` bytes of the input to the body. */
    method TakeBody(input: Buffer, wanted: nat) returns (take: nat)
      requires input.Valid()
      modifies this`response, input, input.buf
      ensures input.Valid() && input.buf == old(input.buf)
      ensures take == Least(old(|input.Contents()|), wanted)
      ensures Model() == Took(old(Model()), old(input.Contents())[..take])
      ensures input.Contents() == old(input.Contents())[take..]
    {
      var size := input.Size();
      take := if size < wanted then size else wanted;
      var data := input.CopyRange(0, take);
      response := response.(body := response.body + data);
      input.Remove(take);
    }

    method ReadBodyLength(input: Buffer) returns (r: Result)
      requires input.Valid()
      modifies this, input, input.buf
      ensures input.Valid() && input.buf == old(input.buf)
      ensures Performed(LengthStep(old(Model()), old(input.Contents())), old(Model()), old(input.Contents()),
                        Model(), input.Contents(), r)
    {
      var size := input.Size();
      if size == 0 { return NeedMore; }
      var take := TakeBody(input, bodyRemaining);
      bodyRemaining := bodyRemaining - take;
      if bodyRemaining > 0 { return NeedMore; }
      state := Done;
      return Complete;
    }

    method ParseBodyLength(input: Buffer) returns (r: Result)
      requires input.Valid() && status == Ok && state == BodyLength
      modifies this, input, input.buf
      ensures input.Valid() && input.buf == old(input.buf)
      ensures Performs(limits, old(Model()), old(input.Contents()), Model(), input.Contents(), r)
    {
      hide LineStep, LengthStep, Loop, Performs, Performed;
      ghost var p, x := Model(), input.Contents();
      r := ReadBodyLength(input);
      StepPerforms(limits, p, x, Model(), input.Contents(), r);
    }

    method ReadChunkData(input: Buffer) returns (r: Result)
      requires input.Valid()
      modifies this, input, input.buf
      ensures input.Valid() && input.buf == old(input.buf)
      ensures Performed(ChunkStep(old(Model()), old(input.Contents())), old(Model()), old(input.Contents()),
                        Model(), input.Contents(), r)
    {
      var size := input.Size();
      if size == 0 { return NeedMore; }
      var take := TakeBody(input, chunkRemaining);
      chunkRemaining := chunkRemaining - take;
      if chunkRemaining > 0 { return NeedMore; }
      state := BodyChunkCrlf;
      return NeedMore;
    }

    method ParseChunkData(input: Buffer) returns (r: Result)
      requires input.Valid() && status == Ok && state == BodyChunkData
      modifies this, input, input.buf
      ensures input.Valid() && input.buf == old(input.buf)
      ensures Performs(limits, old(Model()), old(input.Contents()), Model(), input.Contents(), r)
    {
      hide LineStep, ChunkStep, Loop, Performs, Performed;
      ghost var p, x := Model(), input.Contents();
      r := ReadChunkData(input);
      StepPerforms(limits, p, x, Model(), input.Contents(), r);
    }

    method ParseBodyUntilClose(input: Buffer) returns (r: Result)
      requires input.Valid() && status == Ok && state == BodyUntilClose
      modifies this, input, input.buf
      ensures input.Valid() && input.buf == old(input.buf)
      ensures Performs(limits, old(Model()), old(input.Contents()), Model(), input.Contents(), r)
    {
      hide LineStep, Loop, Performs;
      ghost var p, x := Model(), input.Contents();
      var size := input.Size();
      if size > 0 {
        if |response.body| + size > limits.maxBody {
          status := ResponseTooLarge;
          StepPerforms(limits, p, x, Model(), input.Contents(), Error);
          return Error;
        }
        var take := TakeBody(input, size);
        assert x[..size] == x && x[size..] == "";
        StepPerforms(limits, p, x, Model(), input.Contents(), NeedMore);
      }
      ghost var q, y := Model(), input.Contents();
      if closed {
        state, r := Done, Complete;
      } else {
        r := NeedMore;
      }
      StepPerforms(limits, q, y, Model(), input.Contents(), r);
      if size > 0 { ThenPerforms(limits, p, x, q, y, Model(), input.Contents(), r); }
    }

    /** One call does what the function says, whatever state the parser is in. */
    method Parse(input: Buffer) returns (r: Result)
      requires input.Valid()
      modifies this, input, input.buf
      ensures input.Valid() && input.buf == old(input.buf)
      ensures Ran(Model(), input.Contents(), r) == Run(limits, old(Model()), old(input.Contents()))
    {
      hide Loop, Step;
      if status != Ok { return Error; }
      ghost var p, x := Model(), input.Contents();
      while true
        invariant input.Valid() && input.buf == old(input.buf) && status == Ok
        invariant Loop(limits, p, x) == Loop(limits, Model(), input.Contents())
        decreases Rank(Model(), input.Contents())
      {
        var before := state;
        var available := input.Size();
        ghost var q, y := Model(), input.Contents();
        match state {
          case StatusLine => r := ParseStatusLine(input);
          case HeaderBlock => r := ParseHeaderBlock(input);
          case BodyLength => r := ParseBodyLength(input);
          case BodyChunkSize => r := ParseChunkSize(input);
          case BodyChunkData => r := ParseChunkData(input);
          case BodyChunkCrlf => r := ParseChunkCrlf(input);
          case BodyTrailers => r := ParseTrailers(input);
          case BodyUntilClose => r := ParseBodyUntilClose(input);
          case Done =>
            DoneFinishes(limits, Model(), input.Contents());
            return Complete;
        }
        if r != NeedMore { return; }
        var size := input.Size();
        if state == before && size == available {
          LoopStep(limits, q, y);
          return;
        }
      }
    }

    /** The peer has closed, which completes a body that runs to the close and is an
        error anywhere else. */
    method Finish() returns (r: Result)
      modifies this
      ensures (Model(), r) == Close(old(Model()))
    {
      if status != Ok { return Error; }
      if state == Done { return Complete; }
      closed := true;
      if state == BodyUntilClose {
        state := Done;
        return Complete;
      }
      status := Disconnected;
      return Error;
    }
  }

  lemma {:induction false} ConflictStays(headers: seq<(string, string)>, i: nat)
    requires i <= |headers| && ContentLength(headers[..i]) == Conflict
    ensures ContentLength(headers) == Conflict
    decreases |headers|
  {
    if i == |headers| {
      assert headers[..i] == headers;
    } else {
      var init := headers[..|headers| - 1];
      assert init[..i] == headers[..i];
      ConflictStays(init, i);
    }
  }

  lemma TakenShorter(limits: Limits, n: nat, x: string)
    ensures var t := HttpResponse.TakeLine(limits, n, x); t.Line? ==> |t.rest| < |x|
  {
  }

  lemma DoneFinishes(limits: Limits, p: Parser, x: string)
    requires p.state == Done
    ensures Loop(limits, p, x) == Ran(p, x, Complete)
  {
  }
}
