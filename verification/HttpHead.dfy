/** The head of a response: what is printed is read back, and how the body is framed is a
    matter of the header list, section 3.3.3 of RFC 7230. */
module HttpHead {
  import opened Prelude
  import opened ByteBuffer
  import opened Text
  import opened HttpNumbers
  import opened HttpResponse
  import opened HttpChunked
  import opened HttpFraming

  type Header = (string, string)

  // ---- printing -----------------------------------------------------------------------------

  function DecimalDigit(d: nat): char
    requires d < 10
  {
    ('0' as nat + d) as char
  }

  function CodeText(code: nat): string
    requires code < 1000
  {
    [DecimalDigit(code / 100)] + [DecimalDigit(code / 10 % 10)] + [DecimalDigit(code % 10)]
  }

  const VERSION_TEXT: string := "HTTP/1.1 "

  function StatusText(code: nat, reason: string): string
    requires code < 1000
  {
    VERSION_TEXT + (CodeText(code) + (" " + reason))
  }

  function HeaderText(h: Header): string {
    h.0 + ":" + (" " + h.1)
  }

  function HeaderLines(hs: seq<Header>): string {
    if hs == [] then "" + CRLF else HeaderText(hs[0]) + CRLF + HeaderLines(hs[1..])
  }

  function Head(code: nat, reason: string, hs: seq<Header>): string
    requires code < 1000
  {
    StatusText(code, reason) + CRLF + HeaderLines(hs)
  }

  ghost predicate HeaderOk(h: Header) {
    && h.0 != "" && Trimmed(h.0) && ':' !in h.0 && '\n' !in h.0
    && Trimmed(h.1) && '\n' !in h.1
  }

  ghost predicate HeadOk(code: nat, reason: string, hs: seq<Header>) {
    && 100 <= code <= 599 && Trimmed(reason) && '\n' !in reason
    && forall i :: 0 <= i < |hs| ==> HeaderOk(hs[i])
  }

  // ---- the status line ------------------------------------------------------------------------

  lemma CodeRoundTrip(code: nat)
    requires code < 1000
    ensures ParseSize(CodeText(code)) == Some(code)
  {
    hide Read, Value;
    var a, b, c := DecimalDigit(code / 100), DecimalDigit(code / 10 % 10), DecimalDigit(code % 10);
    NoDigits();
    ValueSnoc("", a, 0);
    assert "" + [a] == [a];
    ValueSnoc([a], b, code / 100);
    ValueSnoc([a] + [b], c, code / 10);
    ReadExact(CodeText(code), 10);
  }

  lemma StatusParts(code: nat, reason: string)
    requires 100 <= code <= 599
    ensures var line := StatusText(code, reason);
            && |line| == 13 + |reason| && line[..5] == "HTTP/" && line[5..8] == "1.1" && line[13..] == reason
            && line[9..12] == CodeText(code)
            && IndexOf(line, ' ', 0) == Some(8) && SkipSpaces(line, 8) == 9 && IndexOf(line, ' ', 9) == Some(12)
  {
    hide IndexOf;
    var line := StatusText(code, reason);
    assert line[..9] == VERSION_TEXT;
    assert line[..5] == VERSION_TEXT[..5] && line[5..8] == VERSION_TEXT[5..8];
    assert line[9..12] == CodeText(code);
    assert line[12] == ' ' && line[13..] == reason;
    assert forall k :: 0 <= k < 9 ==> line[k] == VERSION_TEXT[k];
    IndexOfIs(line, ' ', 0, 8);
    assert line[9] == CodeText(code)[0] && line[10] == CodeText(code)[1] && line[11] == CodeText(code)[2];
    assert SkipSpaces(line, 8) == SkipSpaces(line, 9) == 9;
    IndexOfIs(line, ' ', 9, 12);
  }

  lemma StatusRoundTrip(p: Parser, code: nat, reason: string)
    requires 100 <= code <= 599 && Trimmed(reason)
    ensures OnStatusLine(p, StatusText(code, reason))
            == Next(p.(state := HeaderBlock, response := p.response.(code := code, reason := reason)))
  {
    hide IndexOf, SkipSpaces, Trim, ParseSize, CodeText, StatusText;
    StatusParts(code, reason);
    CodeRoundTrip(code);
    CodeLength(code);
    TrimmedIsTrim(reason);
  }

  lemma CodeLength(code: nat)
    requires code < 1000
    ensures |CodeText(code)| == 3
  {
  }

  // ---- the header lines -----------------------------------------------------------------------

  lemma HeaderRoundTrip(limits: Limits, p: Parser, h: Header)
    requires HeaderOk(h) && |p.response.headers| < limits.maxHeaderCount
    ensures OnHeader(limits, p, HeaderText(h)) == Next(p.(response := p.response.(headers := p.response.headers + [h])))
  {
    hide IndexOf, Trim, ChooseBodyFraming;
    var line := HeaderText(h);
    IndexOfIs(line, ':', 0, |h.0|);
    assert line[..|h.0|] == h.0 && line[|h.0| + 1..] == " " + h.1 && line[0] == h.0[0];
    TrimmedIsTrim(h.0);
    SpaceTrimmed(h.1);
  }

  lemma SpaceTrimmed(v: string)
    requires Trimmed(v)
    ensures Trim(" " + v) == v
  {
    assert (" " + v)[1..] == v;
    TrimmedIsTrim(v);
  }

  lemma HeaderLineFree(h: Header)
    requires HeaderOk(h)
    ensures '\n' !in HeaderText(h)
  {
  }

  /** The parser behind the blank line that ends the head. */
  function BehindHead(p: Parser, hs: seq<Header>): Parser {
    p.(headerBytes := p.headerBytes + |HeaderLines(hs)|, response := p.response.(headers := p.response.headers + hs))
  }

  /** What becomes of the rest once the framing is chosen. */
  function Framed(limits: Limits, p: Parser, rest: string): Ran {
    match ChooseBodyFraming(limits, p)
    case Next(q) => Loop(limits, q, rest)
    case Whole(q) => Ran(q, rest, Complete)
    case Bad(why) => Ran(p.(status := why), rest, Error)
  }

  lemma BlankEnds(limits: Limits, p: Parser, rest: string)
    requires p.state == HeaderBlock && p.headerBytes + 2 <= limits.maxHeaderBlock
    ensures Loop(limits, p, HeaderLines([]) + rest) == Framed(limits, BehindHead(p, []), rest)
  {
    hide Loop, Step, ChooseBodyFraming;
    var s := HeaderLines([]) + rest;
    assert s == "" + CRLF + rest && p.response.headers + [] == p.response.headers;
    LineAdvances(limits, p, "", rest);
    LoopStep(limits, p, s);
  }

  lemma {:induction false} HeadersRoundTrip(limits: Limits, p: Parser, hs: seq<Header>, rest: string)
    requires p.state == HeaderBlock && forall i :: 0 <= i < |hs| ==> HeaderOk(hs[i])
    requires |p.response.headers| + |hs| <= limits.maxHeaderCount
    requires p.headerBytes + |HeaderLines(hs)| <= limits.maxHeaderBlock
    ensures Loop(limits, p, HeaderLines(hs) + rest) == Framed(limits, BehindHead(p, hs), rest)
    decreases |hs|
  {
    hide Loop, Step, Framed, HeaderText, OnHeader, HeaderOk;
    if hs == [] {
      BlankEnds(limits, p, rest);
    } else {
      var h, line, tail := hs[0], HeaderText(hs[0]), HeaderLines(hs[1..]);
      var n := p.headerBytes + |line| + 2;
      var q := p.(headerBytes := n, response := p.response.(headers := p.response.headers + [h]));
      HeaderLineFree(h);
      LineAdvances(limits, p, line, tail + rest);
      Assoc(line + CRLF, tail, rest);
      HeaderRoundTrip(limits, p.(headerBytes := n), h);
      LoopStep(limits, p, HeaderLines(hs) + rest);
      HeadersRoundTrip(limits, q, hs[1..], rest);
      Assoc(p.response.headers, [h], hs[1..]);
      assert [h] + hs[1..] == hs;
    }
  }

  /** The parser in front of a response, whose request may have asked for no body. */
  function Start(noBody: bool): Parser {
    Fresh.(noBody := noBody)
  }

  function HeadRead(noBody: bool, code: nat, reason: string, hs: seq<Header>): Parser
    requires code < 1000
  {
    Start(noBody).(state := HeaderBlock, headerBytes := |Head(code, reason, hs)|, response := Response(code, reason, hs, ""))
  }

  ghost predicate HeadFits(limits: Limits, code: nat, reason: string, hs: seq<Header>) {
    HeadOk(code, reason, hs) && |Head(code, reason, hs)| <= limits.maxHeaderBlock && |hs| <= limits.maxHeaderCount
  }

  /** Any code, any reason and any list of headers within the limits are read back as they
      were printed, in order; what follows is left for the body. */
  lemma HeadRoundTrip(limits: Limits, noBody: bool, code: nat, reason: string, hs: seq<Header>, rest: string)
    requires HeadFits(limits, code, reason, hs)
    ensures Run(limits, Start(noBody), Head(code, reason, hs) + rest)
            == Framed(limits, HeadRead(noBody, code, reason, hs), rest)
  {
    hide Loop, Step, Framed, StatusText, OnStatusLine, HeaderLines;
    var p, line, tail := Start(noBody), StatusText(code, reason), HeaderLines(hs);
    var q := p.(state := HeaderBlock, headerBytes := |line| + 2, response := p.response.(code := code, reason := reason));
    StatusLineFree(code, reason);
    LineAdvances(limits, p, line, tail + rest);
    Assoc(line + CRLF, tail, rest);
    StatusRoundTrip(p.(headerBytes := |line| + 2), code, reason);
    LoopStep(limits, p, line + CRLF + (tail + rest));
    HeadersRoundTrip(limits, q, hs, rest);
    assert [] + hs == hs;
  }

  lemma StatusLineFree(code: nat, reason: string)
    requires code < 1000 && '\n' !in reason
    ensures '\n' !in StatusText(code, reason)
  {
    assert '\n' !in CodeText(code);
  }

  // ---- the framing -------------------------------------------------------------------------------

  /** The first header of a name, up to case. */
  predicate FirstOf(hs: seq<Header>, name: string, k: nat) {
    k < |hs| && IEquals(hs[k].0, name) && forall j :: 0 <= j < k ==> !IEquals(hs[j].0, name)
  }

  lemma {:induction false} GetIsFirst(hs: seq<Header>, name: string) returns (k: nat)
    ensures Get(hs, name).Some? ==> FirstOf(hs, name, k) && Get(hs, name).value == hs[k].1
    ensures Get(hs, name).None? ==> forall j :: 0 <= j < |hs| ==> !IEquals(hs[j].0, name)
  {
    hide IEquals;
    if hs == [] || IEquals(hs[0].0, name) {
      k := 0;
    } else {
      var i := GetIsFirst(hs[1..], name);
      k := i + 1;
      assert forall j :: 1 <= j < |hs| ==> hs[j] == hs[1..][j - 1];
    }
  }

  lemma FirstIsOne(hs: seq<Header>, name: string, j: nat, k: nat)
    requires FirstOf(hs, name, j) && FirstOf(hs, name, k)
    ensures j == k
  {
  }

  predicate IsLength(h: Header) {
    IEquals(h.0, "Content-Length")
  }

  /** Two lengths that are not the same text. */
  ghost predicate LengthsDiffer(hs: seq<Header>) {
    exists i, j :: 0 <= i < j < |hs| && IsLength(hs[i]) && IsLength(hs[j]) && Trim(hs[i].1) != Trim(hs[j].1)
  }

  /** All lengths are this text, and there is one. */
  ghost predicate LengthsAre(hs: seq<Header>, text: string) {
    && (exists i :: 0 <= i < |hs| && IsLength(hs[i]))
    && forall i :: 0 <= i < |hs| && IsLength(hs[i]) ==> Trim(hs[i].1) == text
  }

  ghost predicate NoLength(hs: seq<Header>) {
    forall i :: 0 <= i < |hs| ==> !IsLength(hs[i])
  }

  lemma DifferSnoc(hs: seq<Header>, h: Header)
    requires LengthsDiffer(hs)
    ensures LengthsDiffer(hs + [h])
  {
    hide IsLength, Trim;
    var i, j :| 0 <= i < j < |hs| && IsLength(hs[i]) && IsLength(hs[j]) && Trim(hs[i].1) != Trim(hs[j].1);
    var all := hs + [h];
    assert all[i] == hs[i] && all[j] == hs[j];
  }

  lemma AreSnoc(hs: seq<Header>, h: Header, text: string)
    requires LengthsAre(hs, text)
    ensures if IsLength(h) && Trim(h.1) != text then LengthsDiffer(hs + [h]) else LengthsAre(hs + [h], text)
  {
    hide IsLength, Trim;
    var i :| 0 <= i < |hs| && IsLength(hs[i]);
    var all := hs + [h];
    assert all[i] == hs[i] && all[|hs|] == h;
  }

  lemma NoneSnoc(hs: seq<Header>, h: Header)
    requires NoLength(hs)
    ensures if IsLength(h) then LengthsAre(hs + [h], Trim(h.1)) else NoLength(hs + [h])
  {
    hide IsLength, Trim;
    var all := hs + [h];
    assert all[|hs|] == h;
  }

  /** The lengths are absent, agree or conflict as the header list says. */
  lemma {:induction false} ContentLengthSays(hs: seq<Header>)
    ensures match ContentLength(hs)
            case Absent => NoLength(hs)
            case Agreed(v) => LengthsAre(hs, Trim(v))
            case Conflict => LengthsDiffer(hs)
    decreases |hs|
  {
    hide Trim, IEquals, LengthsAre, LengthsDiffer, NoLength;
    if hs == [] {
      assert NoLength(hs) by { NothingListed(); }
    } else {
      var init, h := hs[..|hs| - 1], hs[|hs| - 1];
      assert init + [h] == hs;
      ContentLengthSays(init);
      match ContentLength(init)
      case Absent => NoneSnoc(init, h);
      case Agreed(v) => AreSnoc(init, h, Trim(v));
      case Conflict => DifferSnoc(init, h);
    }
  }

  lemma NothingListed()
    ensures NoLength([])
  {
  }

  /** The three cases exclude one another. */
  lemma LengthCases(hs: seq<Header>, text: string)
    ensures !(NoLength(hs) && LengthsAre(hs, text)) && !(NoLength(hs) && LengthsDiffer(hs))
    ensures !(LengthsAre(hs, text) && LengthsDiffer(hs))
  {
    hide IsLength, Trim;
  }

  lemma SameText(hs: seq<Header>, a: string, b: string)
    requires LengthsAre(hs, a) && LengthsAre(hs, b)
    ensures a == b
  {
    hide IsLength, Trim;
    var i :| 0 <= i < |hs| && IsLength(hs[i]);
  }

  /** Never a body, whatever the headers say. */
  predicate Bodyless(p: Parser) {
    p.noBody || 100 <= p.response.code < 200 || p.response.code == 204 || p.response.code == 304
  }

  /** The first Transfer-Encoding header, if any, asks for this. */
  ghost predicate Coded(hs: seq<Header>, coding: string) {
    exists k: nat :: FirstOf(hs, "Transfer-Encoding", k) && IEquals(Trim(hs[k].1), coding)
  }

  ghost predicate Uncoded(hs: seq<Header>) {
    Coded(hs, "identity") || forall k :: 0 <= k < |hs| ==> !IEquals(hs[k].0, "Transfer-Encoding")
  }

  lemma CodingSays(hs: seq<Header>)
    ensures var e := Get(hs, "Transfer-Encoding");
            && (Coded(hs, "chunked") <==> e.Some? && IEquals(Trim(e.value), "chunked"))
            && (Uncoded(hs) <==> e.None? || IEquals(Trim(e.value), "identity"))
  {
    hide IEquals, Trim, Get;
    var k := GetIsFirst(hs, "Transfer-Encoding");
    var e := Get(hs, "Transfer-Encoding");
    forall j: nat | FirstOf(hs, "Transfer-Encoding", j) ensures e.Some? && j == k {
      assert IEquals(hs[j].0, "Transfer-Encoding");
      FirstIsOne(hs, "Transfer-Encoding", j, k);
    }
  }

  /** The one length that all its headers agree on. */
  ghost predicate Announces(hs: seq<Header>, length: Option<nat>) {
    exists text :: LengthsAre(hs, text) && ParseSize(text) == length
  }

  /** The framing by the header list alone. */
  lemma FramingSays(limits: Limits, p: Parser, length: Option<nat>)
    ensures var hs, v := p.response.headers, ChooseBodyFraming(limits, p);
            && (Bodyless(p) ==> v == Whole(p.(state := Done)))
            && (!Bodyless(p) && Coded(hs, "chunked") ==> v == Next(p.(state := BodyChunkSize)))
            && (!Bodyless(p) && !Coded(hs, "chunked") && !Uncoded(hs) ==> v == Bad(MalformedResponse))
            && (!Bodyless(p) && !Coded(hs, "chunked") && Uncoded(hs) ==>
                  && (NoLength(hs) ==> v == Next(p.(state := BodyUntilClose)))
                  && (LengthsDiffer(hs) ==> v == Bad(MalformedResponse))
                  && (Announces(hs, length) ==> v == Counted(limits, p, length)))
  {
    hide Trim, IEquals, Get, ContentLength, ParseSize, NoLength, LengthsAre, LengthsDiffer, Coded, Uncoded, Counted;
    var hs := p.response.headers;
    CodingSays(hs);
    if !Bodyless(p) && !Coded(hs, "chunked") && Uncoded(hs) { LengthSays(limits, p, length); }
  }

  /** What a length leads to: too large, no body at all, or that many bytes. */
  function Counted(limits: Limits, p: Parser, length: Option<nat>): Verdict {
    match length
    case None => Bad(MalformedResponse)
    case Some(n) =>
      if n > limits.maxBody then Bad(ResponseTooLarge)
      else if n == 0 then Whole(p.(state := Done, bodyRemaining := 0))
      else Next(p.(state := BodyLength, bodyRemaining := n))
  }

  lemma LengthSays(limits: Limits, p: Parser, length: Option<nat>)
    requires !Bodyless(p)
    requires var e := Get(p.response.headers, "Transfer-Encoding");
             e.None? || (!IEquals(Trim(e.value), "chunked") && IEquals(Trim(e.value), "identity"))
    ensures var hs, v := p.response.headers, ChooseBodyFraming(limits, p);
            && (NoLength(hs) ==> v == Next(p.(state := BodyUntilClose)))
            && (LengthsDiffer(hs) ==> v == Bad(MalformedResponse))
            && (Announces(hs, length) ==> v == Counted(limits, p, length))
  {
    hide Trim, IEquals, Get, ContentLength, ParseSize, NoLength, LengthsAre, LengthsDiffer;
    var hs := p.response.headers;
    ContentLengthSays(hs);
    var c := ContentLength(hs);
    LengthCases(hs, if c.Agreed? then Trim(c.value) else "");
    if Announces(hs, length) {
      var text :| LengthsAre(hs, text) && ParseSize(text) == length;
      LengthCases(hs, text);
      if c.Agreed? { SameText(hs, text, Trim(c.value)); }
    }
  }

  /** A head is malformed, as far as the framing goes, exactly when a body may follow and
      is neither chunked nor uncoded, or is uncoded with two lengths that differ or with
      one that is not a number. */
  lemma RefusedExactly(limits: Limits, p: Parser)
    ensures var hs := p.response.headers;
            ChooseBodyFraming(limits, p) == Bad(MalformedResponse) <==>
            && !Bodyless(p) && !Coded(hs, "chunked")
            && (!Uncoded(hs) || LengthsDiffer(hs) || Announces(hs, None))
  {
    hide ChooseBodyFraming, Trim, IEquals, ContentLength, ParseSize, NoLength, LengthsAre, LengthsDiffer, Coded, Uncoded,
      Announces;
    var hs := p.response.headers;
    FramingSays(limits, p, None);
    var length := OneOfThree(hs);
    FramingSays(limits, p, length);
  }

  lemma OneOfThree(hs: seq<Header>) returns (length: Option<nat>)
    ensures NoLength(hs) || LengthsDiffer(hs) || Announces(hs, length)
  {
    hide Trim, IEquals, ContentLength, ParseSize, NoLength, LengthsAre, LengthsDiffer;
    ContentLengthSays(hs);
    match ContentLength(hs)
    case Agreed(v) =>
      length := ParseSize(Trim(v));
      assert LengthsAre(hs, Trim(v)) && ParseSize(Trim(v)) == length;
    case _ => length := None;
  }

  // ---- whole messages -------------------------------------------------------------------------------

  /** A response in chunks: its code, reason and headers, and as its body the pieces put
      together, whatever the fragments it arrives in. */
  lemma ChunkedResponse(
      limits: Limits, code: nat, reason: string, hs: seq<Header>, pieces: seq<string>, rest: string, fragments: seq<string>)
    requires HeadFits(limits, code, reason, hs) && Coded(hs, "chunked")
    requires !Bodyless(HeadRead(false, code, reason, hs)) && (forall x :: x in pieces ==> 0 < |x| <= SIZE_MAX)
    requires Within(limits, HeadRead(false, code, reason, hs), Canonical(pieces))
    requires |fragments| >= 1 && Concat(fragments) == Head(code, reason, hs) + (Encode(Canonical(pieces)) + rest)
    ensures var r := Feed(limits, Fresh, fragments);
            r.result == Complete && r.rest == rest && r.p.response == Response(code, reason, hs, Concat(pieces))
  {
    hide Run, Loop, Feed, Head, HeaderOk, Coded, Bodyless, Canonical, Encode, Within, ChooseBodyFraming, Concat;
    var p := HeadRead(false, code, reason, hs);
    FramingSays(limits, p, None);
    HeadWaits(limits, code, reason, hs, p.(state := BodyChunkSize));
    WithinAnyState(limits, p, BodyChunkSize, Canonical(pieces));
    ChunkedMessage(limits, Head(code, reason, hs), p.(state := BodyChunkSize), pieces, rest, fragments);
    assert "" + Concat(pieces) == Concat(pieces);
  }

  /** A response with a length. */
  lemma CountedResponse(
      limits: Limits, code: nat, reason: string, hs: seq<Header>, body: string, rest: string, fragments: seq<string>)
    requires HeadFits(limits, code, reason, hs) && Uncoded(hs) && !Coded(hs, "chunked") && Announces(hs, Some(|body|))
    requires !Bodyless(HeadRead(false, code, reason, hs)) && 0 < |body| <= limits.maxBody
    requires |fragments| >= 1 && Concat(fragments) == Head(code, reason, hs) + (body + rest)
    ensures var r := Feed(limits, Fresh, fragments);
            r.result == Complete && r.rest == rest && r.p.response == Response(code, reason, hs, body)
  {
    hide Run, Loop, Feed, Head, HeaderOk, Coded, Uncoded, Announces, Bodyless, ChooseBodyFraming;
    var p := HeadRead(false, code, reason, hs);
    var q := p.(state := BodyLength, bodyRemaining := |body|);
    FramingSays(limits, p, Some(|body|));
    HeadWaits(limits, code, reason, hs, q);
    CountedMessage(limits, Head(code, reason, hs), q, body, rest, fragments);
    assert "" + body == body;
  }

  /** A response without either, which the close ends. */
  lemma OpenResponse(limits: Limits, code: nat, reason: string, hs: seq<Header>, body: string, fragments: seq<string>)
    requires HeadFits(limits, code, reason, hs) && Uncoded(hs) && !Coded(hs, "chunked") && NoLength(hs)
    requires !Bodyless(HeadRead(false, code, reason, hs)) && |body| <= limits.maxBody
    requires |fragments| >= 1 && Concat(fragments) == Head(code, reason, hs) + body
    ensures var r := Feed(limits, Fresh, fragments);
            && r.result == NeedMore && r.rest == "" && Close(r.p).1 == Complete
            && Close(r.p).0.response == Response(code, reason, hs, body)
  {
    hide Run, Loop, Feed, Head, HeaderOk, Coded, Uncoded, NoLength, Bodyless, ChooseBodyFraming;
    var p := HeadRead(false, code, reason, hs);
    FramingSays(limits, p, None);
    HeadWaits(limits, code, reason, hs, p.(state := BodyUntilClose));
    OpenMessage(limits, Head(code, reason, hs), p.(state := BodyUntilClose), body, fragments);
    assert "" + body == body;
  }

  /** A response that never has a body ends with its head. */
  lemma BodylessResponse(
      limits: Limits, noBody: bool, code: nat, reason: string, hs: seq<Header>, rest: string, fragments: seq<string>)
    requires HeadFits(limits, code, reason, hs) && Bodyless(HeadRead(noBody, code, reason, hs))
    requires |fragments| >= 1 && Concat(fragments) == Head(code, reason, hs) + rest
    ensures var r := Feed(limits, Start(noBody), fragments);
            r.result == Complete && r.rest == rest && r.p.response == Response(code, reason, hs, "")
  {
    hide Run, Loop, Feed, Head, HeaderOk, Bodyless, ChooseBodyFraming;
    FramingSays(limits, HeadRead(noBody, code, reason, hs), None);
    HeadRoundTrip(limits, noBody, code, reason, hs, rest);
    FragmentationIndependent(limits, Start(noBody), fragments);
  }

  lemma WithinAnyState(limits: Limits, p: Parser, state: State, b: Chunked)
    requires Within(limits, p, b)
    ensures Within(limits, p.(state := state), b)
  {
  }

  lemma HeadWaits(limits: Limits, code: nat, reason: string, hs: seq<Header>, q: Parser)
    requires HeadFits(limits, code, reason, hs)
    requires ChooseBodyFraming(limits, HeadRead(false, code, reason, hs)) == Next(q) && !q.closed
    requires q.state == BodyChunkSize || q.state == BodyLength || q.state == BodyUntilClose
    ensures Run(limits, Fresh, Head(code, reason, hs)) == Ran(q, "", NeedMore)
  {
    hide Run, Loop, Head, HeaderOk, ChooseBodyFraming;
    HeadRoundTrip(limits, false, code, reason, hs, "");
    assert Head(code, reason, hs) + "" == Head(code, reason, hs);
    LoopStep(limits, q, "");
  }
}
