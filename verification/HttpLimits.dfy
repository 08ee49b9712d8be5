/** The limits of the response parser hold for every input, in any fragments. */
module HttpLimits {
  import opened ByteBuffer
  import opened Text
  import opened HttpNumbers
  import opened HttpResponse
  import opened HttpChunked

  /** What has been kept of the response is within the limits. */
  predicate Kept(limits: Limits, p: Parser) {
    |p.response.body| <= limits.maxBody && |p.response.headers| <= limits.maxHeaderCount
  }

  /** And so is all that the parser has agreed to take. */
  predicate Bounded(limits: Limits, p: Parser) {
    && Kept(limits, p)
    && p.headerBytes <= limits.maxHeaderBlock
    && (p.state == StatusLine || p.state == HeaderBlock ==> p.response.body == "")
    && (p.state == BodyLength ==> |p.response.body| + p.bodyRemaining <= limits.maxBody)
    && (p.state == BodyChunkData ==> |p.response.body| + p.chunkRemaining <= limits.maxBody)
  }

  lemma StatusLineBounded(limits: Limits, p: Parser, line: string)
    requires Bounded(limits, p) && p.state == StatusLine && OnStatusLine(p, line).Next?
    ensures Bounded(limits, OnStatusLine(p, line).p)
  {
    hide IStartsWith, ParseSize, Trim, SkipSpaces, IndexOf;
  }

  lemma FramingBounded(limits: Limits, p: Parser)
    requires Bounded(limits, p) && p.state == HeaderBlock
    ensures var v := ChooseBodyFraming(limits, p); !v.Bad? ==> Bounded(limits, v.p)
  {
    hide Get, ContentLength, ParseSize, Trim, IEquals;
  }

  lemma HeaderBounded(limits: Limits, p: Parser, line: string)
    requires Bounded(limits, p) && p.state == HeaderBlock
    ensures var v := OnHeader(limits, p, line); !v.Bad? ==> Bounded(limits, v.p)
  {
    hide ChooseBodyFraming, Trim, IndexOf;
    FramingBounded(limits, p);
  }

  lemma SizeBounded(limits: Limits, p: Parser, line: string)
    requires Unwrapped(limits) && Bounded(limits, p) && p.state == BodyChunkSize
    ensures var v := OnChunkSize(limits, p, line); v.Next? ==> Bounded(limits, v.p)
  {
    hide ParseChunkSize, HasRoom;
    var size := ParseChunkSize(line);
    if size.Some? && HasRoom(limits, |p.response.body|, size.value) {
      RoomIsRoom(limits, |p.response.body|, size.value);
    }
  }

  lemma OnLineBounded(limits: Limits, p: Parser, line: string)
    requires Unwrapped(limits) && Bounded(limits, p) && ReadsLines(p.state)
    ensures var v := OnLine(limits, p, line); !v.Bad? ==> Bounded(limits, v.p)
  {
    hide OnStatusLine, OnHeader, OnChunkSize;
    match p.state
    case StatusLine =>
      StatusGoesOn(p, line);
      if OnStatusLine(p, line).Next? { StatusLineBounded(limits, p, line); }
    case HeaderBlock => HeaderBounded(limits, p, line);
    case BodyChunkSize =>
      ChunkGoesOn(limits, p, line);
      SizeBounded(limits, p, line);
    case _ =>
  }

  lemma StatusGoesOn(p: Parser, line: string)
    ensures !OnStatusLine(p, line).Whole?
  {
  }

  lemma ChunkGoesOn(limits: Limits, p: Parser, line: string)
    ensures !OnChunkSize(limits, p, line).Whole?
  {
  }

  /** Every step keeps the bounds; one that fails keeps them for what has been kept; and
      one that waits leaves no more than one line unread. */
  lemma StepBounded(limits: Limits, p: Parser, input: string)
    requires Unwrapped(limits) && Bounded(limits, p)
    ensures var o := Step(limits, p, input);
            && (o.Wait? ==> |input| <= limits.maxHeaderBlock)
            && (o.Advance? || o.Finish? ==> Bounded(limits, o.p))
            && (o.Fail? ==> Kept(limits, o.p))
  {
    hide OnLine, IndexOf;
    if ReadsLines(p.state) {
      match TakeLine(limits, p.headerBytes, input)
      case Line(text, n, rest) => OnLineBounded(limits, p.(headerBytes := n), text);
      case _ =>
    }
  }

  /** What holds after a call. */
  predicate Contained(limits: Limits, r: Ran) {
    && Kept(limits, r.p)
    && (r.result != Error ==> Bounded(limits, r.p))
    && (r.result == NeedMore ==> |r.rest| <= limits.maxHeaderBlock)
  }

  lemma {:induction false} LoopContained(limits: Limits, p: Parser, input: string)
    requires Unwrapped(limits) && Bounded(limits, p)
    ensures Contained(limits, Loop(limits, p, input))
    decreases Rank(p, input)
  {
    hide Loop, Step, Bounded, Kept;
    StepRanks(limits, p, input);
    LoopStep(limits, p, input);
    StepBounded(limits, p, input);
    var o := Step(limits, p, input);
    if o.Wait? || o.Finish? { BoundedKept(limits, if o.Wait? then p else o.p); }
    if o.Advance? { LoopContained(limits, o.p, o.rest); }
  }

  lemma BoundedKept(limits: Limits, p: Parser)
    requires Bounded(limits, p)
    ensures Kept(limits, p)
  {
  }

  lemma {:induction false} FeedContained(limits: Limits, p: Parser, pieces: seq<string>)
    requires Unwrapped(limits) && |pieces| >= 1 && Bounded(limits, p) && p.status == Ok
    ensures Contained(limits, Feed(limits, p, pieces))
    ensures var r := Feed(limits, p, pieces); r.p.status == Ok <==> r.result != Error
    decreases |pieces|
  {
    hide Loop, Bounded, Kept;
    var last := |pieces| - 1;
    if last == 0 {
      LoopContained(limits, p, pieces[0]);
      RunResult(limits, p, pieces[0]);
    } else {
      FeedContained(limits, p, pieces[..last]);
      var r := Feed(limits, p, pieces[..last]);
      RunResult(limits, r.p, r.rest + pieces[last]);
      if r.p.status == Ok { LoopContained(limits, r.p, r.rest + pieces[last]); }
    }
  }

  /** For every input in any fragments: no body and no header list beyond its limit, not
      even one that is refused in the end; no more line bytes than the header block may
      have, unless it is refused; and no more unread bytes than one line may have while
      the parser waits. */
  lemma EveryInputWithin(limits: Limits, noBody: bool, pieces: seq<string>)
    requires Unwrapped(limits) && |pieces| >= 1
    ensures var r := Feed(limits, Fresh.(noBody := noBody), pieces);
            && |r.p.response.body| <= limits.maxBody && |r.p.response.headers| <= limits.maxHeaderCount
            && (r.result != Error ==> r.p.headerBytes <= limits.maxHeaderBlock)
            && (r.result == NeedMore ==> |r.rest| <= limits.maxHeaderBlock)
  {
    hide Feed;
    FeedContained(limits, Fresh.(noBody := noBody), pieces);
  }
}
