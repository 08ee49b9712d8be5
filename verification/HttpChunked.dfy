/** Chunked decoding undoes chunked encoding, section 4.1 of RFC 7230. */
module HttpChunked {
  import opened Prelude
  import opened ByteBuffer
  import opened Text
  import opened HttpNumbers
  import opened HttpResponse

  /** What a line says: without the carriage return that may stand before its line feed. */
  function LineText(raw: string): string {
    if raw != "" && raw[|raw| - 1] == '\r' then raw[..|raw| - 1] else raw
  }

  /** A line as it is sent, up to its line feed. */
  predicate IsLine(raw: string) {
    '\n' !in raw
  }

  predicate IsBlank(raw: string) {
    IsLine(raw) && LineText(raw) == ""
  }

  /** A chunk as it may be sent: a size line, possibly with leading zeros, upper case
      digits, spaces or an extension, the data it announces, and the end of a line. */
  datatype Chunk = Chunk(line: string, data: string, end: string)

  /** A chunked body: its chunks, the line that announces the end, trailer lines that are
      read and dropped, and a blank line.  Every line ends with LF or CRLF. */
  datatype Chunked = Chunked(chunks: seq<Chunk>, last: string, trailers: seq<string>, blank: string)

  predicate ChunkOk(c: Chunk) {
    IsLine(c.line) && c.data != "" && ParseChunkSize(LineText(c.line)) == Some(|c.data|) && IsBlank(c.end)
  }

  predicate TrailerOk(t: string) {
    IsLine(t) && LineText(t) != ""
  }

  predicate WellFormed(b: Chunked) {
    && (forall c :: c in b.chunks ==> ChunkOk(c))
    && IsLine(b.last) && ParseChunkSize(LineText(b.last)) == Some(0)
    && (forall t :: t in b.trailers ==> TrailerOk(t))
    && IsBlank(b.blank)
  }

  function EncodeChunk(c: Chunk): string {
    c.line + "\n" + (c.data + (c.end + "\n"))
  }

  function EncodeTrailers(ts: seq<string>, blank: string): string {
    if ts == [] then blank + "\n" else ts[0] + "\n" + EncodeTrailers(ts[1..], blank)
  }

  function Encode(b: Chunked): string
    decreases |b.chunks|
  {
    if b.chunks == [] then b.last + "\n" + EncodeTrailers(b.trailers, b.blank)
    else EncodeChunk(b.chunks[0]) + Encode(b.(chunks := b.chunks[1..]))
  }

  function Body(cs: seq<Chunk>): string {
    if cs == [] then "" else cs[0].data + Body(cs[1..])
  }

  /** The bytes of the lines, which count towards the header limit. */
  function TrailerBytes(ts: seq<string>, blank: string): nat {
    if ts == [] then |blank| + 1 else |ts[0]| + 1 + TrailerBytes(ts[1..], blank)
  }

  function LineBytes(b: Chunked): nat
    decreases |b.chunks|
  {
    if b.chunks == [] then |b.last| + 1 + TrailerBytes(b.trailers, b.blank)
    else |b.chunks[0].line| + 1 + |b.chunks[0].end| + 1 + LineBytes(b.(chunks := b.chunks[1..]))
  }

  /** Within the chunk, the body and the header limits. */
  predicate Within(limits: Limits, p: Parser, b: Chunked) {
    Sized(limits, |p.response.body|, b.chunks) && p.headerBytes + LineBytes(b) <= limits.maxHeaderBlock
  }

  /** There is room for each chunk behind those before it, by the sums of 64 bits. */
  predicate ChunksFit(limits: Limits, n: nat, cs: seq<Chunk>)
    decreases |cs|
  {
    if cs == [] then HasRoom(limits, n, 0)
    else HasRoom(limits, n, |cs[0].data|) && ChunksFit(limits, n + |cs[0].data|, cs[1..])
  }

  /** What the parser lets through. */
  predicate Admits(limits: Limits, p: Parser, b: Chunked) {
    ChunksFit(limits, |p.response.body|, b.chunks) && p.headerBytes + LineBytes(b) <= limits.maxHeaderBlock
  }

  lemma FirstAndRest(limits: Limits, cs: seq<Chunk>)
    requires cs != []
    ensures (forall c :: c in cs ==> |c.data| <= limits.maxChunkSize) <==>
            |cs[0].data| <= limits.maxChunkSize && forall c :: c in cs[1..] ==> |c.data| <= limits.maxChunkSize
    ensures |Body(cs)| == |cs[0].data| + |Body(cs[1..])|
  {
    assert cs == [cs[0]] + cs[1..];
  }

  /** No chunk is too large, and neither is the body that they make up. */
  predicate Sized(limits: Limits, n: nat, cs: seq<Chunk>) {
    (forall c :: c in cs ==> |c.data| <= limits.maxChunkSize) && n + |Body(cs)| <= limits.maxBody
  }

  lemma {:induction false} SizedFits(limits: Limits, n: nat, cs: seq<Chunk>)
    requires Sized(limits, n, cs)
    ensures ChunksFit(limits, n, cs)
    decreases |cs|
  {
    if cs != [] {
      FirstAndRest(limits, cs);
      SizedFits(limits, n + |cs[0].data|, cs[1..]);
    }
  }

  lemma WithinAdmits(limits: Limits, p: Parser, b: Chunked)
    requires Within(limits, p, b)
    ensures Admits(limits, p, b)
  {
    SizedFits(limits, |p.response.body|, b.chunks);
  }

  /** The sum of the two limits is a number of 64 bits. */
  predicate Unwrapped(limits: Limits) {
    limits.maxBody + limits.maxChunkSize <= SIZE_MAX
  }

  lemma {:induction false} FitsSized(limits: Limits, n: nat, cs: seq<Chunk>)
    requires Unwrapped(limits) && n <= limits.maxBody && ChunksFit(limits, n, cs)
    ensures Sized(limits, n, cs)
    decreases |cs|
  {
    if cs != [] {
      RoomIsRoom(limits, n, |cs[0].data|);
      FirstAndRest(limits, cs);
      FitsSized(limits, n + |cs[0].data|, cs[1..]);
    }
  }

  lemma RoomIsRoom(limits: Limits, n: nat, size: nat)
    requires Unwrapped(limits) && n <= limits.maxBody && HasRoom(limits, n, size)
    ensures n + size <= limits.maxBody
  {
  }

  /** What the parser lets through is what the limits allow, when their sum is a number
      of 64 bits. */
  lemma AdmitsIsWithin(limits: Limits, p: Parser, b: Chunked)
    requires Unwrapped(limits) && |p.response.body| <= limits.maxBody
    ensures Admits(limits, p, b) <==> Within(limits, p, b)
  {
    if Admits(limits, p, b) { FitsSized(limits, |p.response.body|, b.chunks); }
    if Within(limits, p, b) { WithinAdmits(limits, p, b); }
  }

  /** And only then: otherwise a chunk is let through that takes the body beyond its limit. */
  lemma RoomExact(limits: Limits)
    requires limits.maxBody <= SIZE_MAX && limits.maxChunkSize <= SIZE_MAX
    ensures Unwrapped(limits) <==>
            forall n: nat, size: nat :: n <= limits.maxBody && HasRoom(limits, n, size) ==> n + size <= limits.maxBody
  {
    if Unwrapped(limits) {
      forall n: nat, size: nat | n <= limits.maxBody && HasRoom(limits, n, size) ensures n + size <= limits.maxBody {
        RoomIsRoom(limits, n, size);
      }
    } else {
      var n := SIZE_MAX + 1 - limits.maxChunkSize;
      assert HasRoom(limits, n, limits.maxChunkSize);
    }
  }

  lemma {:induction false} FirstNewline(line: string, rest: string, from: nat)
    requires '\n' !in line && from <= |line|
    ensures IndexOf(line + "\n" + rest, '\n', from) == Some(|line|)
    decreases |line| - from
  {
    var s := line + "\n" + rest;
    if from < |line| {
      assert s[from] == line[from];
      FirstNewline(line, rest, from + 1);
    }
  }

  lemma OneLine(limits: Limits, n: nat, raw: string, rest: string)
    requires IsLine(raw) && n + |raw| + 1 <= limits.maxHeaderBlock
    ensures TakeLine(limits, n, raw + "\n" + rest) == Line(LineText(raw), n + |raw| + 1, rest)
  {
    hide IndexOf;
    var s := raw + "\n" + rest;
    FirstNewline(raw, rest, 0);
    assert s[..|raw|] == raw && s[|raw| + 1..] == rest;
    assert raw != "" ==> s[|raw| - 1] == raw[|raw| - 1] && s[..|raw| - 1] == raw[..|raw| - 1];
  }

  lemma RawAdvances(limits: Limits, p: Parser, raw: string, rest: string)
    requires ReadsLines(p.state) && IsLine(raw) && p.headerBytes + |raw| + 1 <= limits.maxHeaderBlock
    ensures var v := OnLine(limits, p.(headerBytes := p.headerBytes + |raw| + 1), LineText(raw));
            var o := Step(limits, p, raw + "\n" + rest);
            && (v.Next? ==> o == Advance(v.p, rest))
            && (v.Whole? ==> o == Finish(v.p, rest))
            && (v.Bad? ==> o == Fail(p.(headerBytes := p.headerBytes + |raw| + 1, status := v.why), rest))
  {
    hide TakeLine, OnLine;
    OneLine(limits, p.headerBytes, raw, rest);
  }

  lemma LineAdvances(limits: Limits, p: Parser, line: string, rest: string)
    requires ReadsLines(p.state) && '\n' !in line && p.headerBytes + |line| + 2 <= limits.maxHeaderBlock
    ensures var v := OnLine(limits, p.(headerBytes := p.headerBytes + |line| + 2), line);
            var o := Step(limits, p, line + CRLF + rest);
            && (v.Next? ==> o == Advance(v.p, rest))
            && (v.Whole? ==> o == Finish(v.p, rest))
            && (v.Bad? ==> o == Fail(p.(headerBytes := p.headerBytes + |line| + 2, status := v.why), rest))
  {
    hide Step, OnLine;
    var raw := line + "\r";
    assert raw + "\n" + rest == line + CRLF + rest && LineText(raw) == line;
    RawAdvances(limits, p, raw, rest);
  }

  /** The parser after one chunk. */
  function AfterChunk(p: Parser, c: Chunk): Parser {
    Took(p, c.data).(headerBytes := p.headerBytes + |c.line| + 1 + |c.end| + 1, chunkRemaining := 0)
  }

  /** Within a chunk: behind its size line, and behind its data. */
  function AtData(p: Parser, c: Chunk): Parser {
    p.(state := BodyChunkData, headerBytes := p.headerBytes + |c.line| + 1, chunkRemaining := |c.data|)
  }

  function AtEnd(p: Parser, c: Chunk): Parser {
    Took(AtData(p, c), c.data).(state := BodyChunkCrlf, chunkRemaining := 0)
  }

  lemma ChunkStates(limits: Limits, p: Parser, c: Chunk, rest: string)
    requires p.state == BodyChunkSize && ChunkOk(c)
    requires HasRoom(limits, |p.response.body|, |c.data|)
    requires p.headerBytes + |c.line| + 1 + |c.end| + 1 <= limits.maxHeaderBlock
    ensures var behind := c.end + "\n" + rest;
            && Step(limits, p, c.line + "\n" + (c.data + behind)) == Advance(AtData(p, c), c.data + behind)
            && Step(limits, AtData(p, c), c.data + behind) == Advance(AtEnd(p, c), behind)
            && Step(limits, AtEnd(p, c), behind) == Advance(AfterChunk(p, c), rest)
  {
    hide LineStep, ParseChunkSize, IsLine, LineText, HasRoom;
    var behind := c.end + "\n" + rest;
    RawAdvances(limits, p, c.line, c.data + behind);
    var s := c.data + behind;
    assert s[..|c.data|] == c.data && s[|c.data|..] == behind;
    RawAdvances(limits, AtEnd(p, c), c.end, rest);
  }

  lemma ChunkDecodes(limits: Limits, p: Parser, c: Chunk, rest: string)
    requires p.state == BodyChunkSize && ChunkOk(c)
    requires HasRoom(limits, |p.response.body|, |c.data|)
    requires p.headerBytes + |c.line| + 1 + |c.end| + 1 <= limits.maxHeaderBlock
    ensures Loop(limits, p, EncodeChunk(c) + rest) == Loop(limits, AfterChunk(p, c), rest)
  {
    hide Step, Loop, AtData, AtEnd, AfterChunk;
    var behind := c.end + "\n" + rest;
    ChunkStates(limits, p, c, rest);
    ChunkGroups(c, rest);
    LoopStep(limits, p, EncodeChunk(c) + rest);
    LoopStep(limits, AtData(p, c), c.data + behind);
    LoopStep(limits, AtEnd(p, c), behind);
  }

  lemma ChunkGroups(c: Chunk, rest: string)
    ensures EncodeChunk(c) + rest == c.line + "\n" + (c.data + (c.end + "\n" + rest))
  {
  }

  lemma {:induction false} TrailersDecode(limits: Limits, p: Parser, ts: seq<string>, blank: string, rest: string)
    requires p.state == BodyTrailers && (forall t :: t in ts ==> TrailerOk(t)) && IsBlank(blank)
    requires p.headerBytes + TrailerBytes(ts, blank) <= limits.maxHeaderBlock
    ensures Loop(limits, p, EncodeTrailers(ts, blank) + rest) ==
            Ran(p.(state := Done, headerBytes := p.headerBytes + TrailerBytes(ts, blank)), rest, Complete)
    decreases |ts|
  {
    hide Step, Loop, IsLine, LineText;
    var s := EncodeTrailers(ts, blank) + rest;
    LoopStep(limits, p, s);
    if ts == [] {
      RawAdvances(limits, p, blank, rest);
    } else {
      var t, more := ts[0], EncodeTrailers(ts[1..], blank) + rest;
      assert s == t + "\n" + more;
      assert TrailerOk(t);
      RawAdvances(limits, p, t, more);
      TrailersDecode(limits, p.(headerBytes := p.headerBytes + |t| + 1), ts[1..], blank, rest);
    }
  }

  /** The parser once the body is complete. */
  function AfterBody(p: Parser, b: Chunked): Parser {
    Took(p, Body(b.chunks)).(
      state := Done, headerBytes := p.headerBytes + LineBytes(b),
      chunkRemaining := if b.chunks == [] then p.chunkRemaining else 0)
  }

  lemma LastDecodes(limits: Limits, p: Parser, b: Chunked, rest: string)
    requires p.state == BodyChunkSize && WellFormed(b) && Admits(limits, p, b) && b.chunks == []
    ensures Loop(limits, p, Encode(b) + rest) == Ran(AfterBody(p, b), rest, Complete)
  {
    hide Step, Loop, ParseChunkSize, EncodeTrailers, IsLine, LineText;
    var tail := EncodeTrailers(b.trailers, b.blank) + rest;
    var s := Encode(b) + rest;
    assert s == b.last + "\n" + tail;
    RawAdvances(limits, p, b.last, tail);
    LoopStep(limits, p, s);
    TrailersDecode(limits, p.(state := BodyTrailers, headerBytes := p.headerBytes + |b.last| + 1), b.trailers, b.blank, rest);
    assert p.response.body + "" == p.response.body;
  }

  /** Decoding gives back the data of the chunks, in order and nothing else, and
      leaves the bytes that follow untouched. */
  lemma {:induction false} ChunkedDecodes(limits: Limits, p: Parser, b: Chunked, rest: string)
    requires p.state == BodyChunkSize && WellFormed(b) && Admits(limits, p, b)
    ensures Loop(limits, p, Encode(b) + rest) == Ran(AfterBody(p, b), rest, Complete)
    decreases |b.chunks|
  {
    hide Step, Loop, ChunkOk;
    if b.chunks == [] {
      LastDecodes(limits, p, b, rest);
    } else {
      var c, more := b.chunks[0], b.(chunks := b.chunks[1..]);
      assert ChunkOk(c);
      var tail := Encode(more) + rest;
      assert Encode(b) + rest == EncodeChunk(c) + tail;
      ChunkDecodes(limits, p, c, tail);
      ChunkedDecodes(limits, AfterChunk(p, c), more, rest);
      assert (p.response.body + c.data) + Body(more.chunks) == p.response.body + Body(b.chunks);
    }
  }

  // ---- and nothing else is decoded --------------------------------------------------------------

  lemma LineTaken(limits: Limits, n: nat, input: string) returns (raw: string)
    requires TakeLine(limits, n, input).Line?
    ensures var t := TakeLine(limits, n, input);
            IsLine(raw) && input == raw + "\n" + t.rest && t == Line(LineText(raw), n + |raw| + 1, t.rest)
            && n + |raw| + 1 <= limits.maxHeaderBlock
  {
    hide IndexOf;
    var lf := IndexOf(input, '\n', 0).value;
    raw := input[..lf];
    assert input == raw + "\n" + input[lf + 1..];
    assert lf > 0 ==> raw[lf - 1] == input[lf - 1] && raw[..lf - 1] == input[..lf - 1];
  }

  /** A step on a line that goes on or completes has taken a whole line. */
  lemma LineWasTaken(limits: Limits, p: Parser, input: string) returns (raw: string)
    requires ReadsLines(p.state) && !Step(limits, p, input).Wait? && !Step(limits, p, input).Fail?
    ensures var o := Step(limits, p, input);
            var v := OnLine(limits, p.(headerBytes := p.headerBytes + |raw| + 1), LineText(raw));
            && IsLine(raw) && p.headerBytes + |raw| + 1 <= limits.maxHeaderBlock && input == raw + "\n" + o.rest
            && (if o.Advance? then v == Next(o.p) else v == Whole(o.p))
  {
    hide OnLine, TakeLine, IsLine;
    raw := LineTaken(limits, p.headerBytes, input);
  }

  lemma {:induction false} TrailersWere(limits: Limits, p: Parser, input: string) returns (ts: seq<string>, blank: string)
    requires p.state == BodyTrailers && Loop(limits, p, input).result == Complete
    ensures (forall t :: t in ts ==> TrailerOk(t)) && IsBlank(blank)
    ensures p.headerBytes + TrailerBytes(ts, blank) <= limits.maxHeaderBlock
    ensures input == EncodeTrailers(ts, blank) + Loop(limits, p, input).rest
    decreases |input|
  {
    hide Step, Loop, IsLine, LineText;
    LoopStep(limits, p, input);
    var raw := LineWasTaken(limits, p, input);
    var o := Step(limits, p, input);
    if o.Finish? {
      ts, blank := [], raw;
    } else {
      var more;
      more, blank := TrailersWere(limits, o.p, o.rest);
      ts := [raw] + more;
      assert ts[1..] == more;
      assert raw + "\n" + (EncodeTrailers(more, blank) + Loop(limits, o.p, o.rest).rest)
             == EncodeTrailers(ts, blank) + Loop(limits, p, input).rest;
    }
  }

  /** All of the data of a chunk has arrived when its end was reached. */
  lemma DataWasTaken(limits: Limits, q: Parser, input: string)
    requires q.state == BodyChunkData && q.chunkRemaining > 0 && Loop(limits, q, input).result == Complete
    ensures |input| >= q.chunkRemaining
    ensures var data := input[..q.chunkRemaining];
            Loop(limits, q, input)
            == Loop(limits, Took(q, data).(state := BodyChunkCrlf, chunkRemaining := 0), input[q.chunkRemaining..])
  {
    hide Loop, LineStep;
    LoopStep(limits, q, input);
    if |input| < q.chunkRemaining {
      var o := Step(limits, q, input);
      LoopStep(limits, o.p, o.rest);
    }
  }

  /** Whatever is decoded was a chunked body. */
  lemma {:induction false} WasChunked(limits: Limits, p: Parser, input: string) returns (b: Chunked)
    requires p.state == BodyChunkSize && Loop(limits, p, input).result == Complete
    ensures WellFormed(b) && Admits(limits, p, b) && input == Encode(b) + Loop(limits, p, input).rest
    decreases |input|
  {
    hide Step, Loop, IsLine, LineText, ParseChunkSize, EncodeTrailers, TrailerBytes, TrailerOk, AtData;
    LoopStep(limits, p, input);
    SizeGoesOn(limits, p, input);
    var raw := LineWasTaken(limits, p, input);
    var o := Step(limits, p, input);
    if o.p.state == BodyTrailers {
      var ts, blank := TrailersWere(limits, o.p, o.rest);
      b := Chunked([], raw, ts, blank);
      assert input == Encode(b) + Loop(limits, p, input).rest by {
        Assoc(raw + "\n", EncodeTrailers(ts, blank), Loop(limits, p, input).rest);
      }
    } else {
      b := ChunkWas(limits, p, raw, o, input);
    }
  }

  /** A size line never completes the body by itself. */
  lemma SizeGoesOn(limits: Limits, p: Parser, input: string)
    requires p.state == BodyChunkSize
    ensures !Step(limits, p, input).Finish?
  {
    hide TakeLine, ParseChunkSize;
  }

  lemma {:induction false} ChunkWas(limits: Limits, p: Parser, raw: string, o: Outcome, input: string) returns (b: Chunked)
    requires p.state == BodyChunkSize && Loop(limits, p, input).result == Complete
    requires o.Advance? && o.p.state == BodyChunkData && Loop(limits, p, input) == Loop(limits, o.p, o.rest)
    requires IsLine(raw) && p.headerBytes + |raw| + 1 <= limits.maxHeaderBlock && input == raw + "\n" + o.rest
    requires OnLine(limits, p.(headerBytes := p.headerBytes + |raw| + 1), LineText(raw)) == Next(o.p)
    ensures WellFormed(b) && Admits(limits, p, b) && input == Encode(b) + Loop(limits, p, input).rest
    decreases |input|, 0
  {
    hide Step, Loop, IsLine, LineText, ParseChunkSize, AtData;
    var size := o.p.chunkRemaining;
    DataWasTaken(limits, o.p, o.rest);
    var data, behind := o.rest[..size], o.rest[size..];
    var q := Took(o.p, data).(state := BodyChunkCrlf, chunkRemaining := 0);
    LoopStep(limits, q, behind);
    EndGoesOn(limits, q, behind);
    var end := LineWasTaken(limits, q, behind);
    var e := Step(limits, q, behind);
    var c := Chunk(raw, data, end);
    var more := WasChunked(limits, e.p, e.rest);
    b := more.(chunks := [c] + more.chunks);
    Prepended(limits, p, c, more, e.p, e.rest, Loop(limits, p, input).rest, input);
  }

  lemma EndGoesOn(limits: Limits, p: Parser, input: string)
    requires p.state == BodyChunkCrlf
    ensures !Step(limits, p, input).Finish?
  {
    hide TakeLine;
  }

  lemma Prepended(limits: Limits, p: Parser, c: Chunk, more: Chunked, after: Parser, tail: string, rest: string, input: string)
    requires ChunkOk(c) && WellFormed(more) && Admits(limits, after, more) && HasRoom(limits, |p.response.body|, |c.data|)
    requires after.response.body == p.response.body + c.data
    requires after.headerBytes == p.headerBytes + |c.line| + 1 + |c.end| + 1
    requires tail == Encode(more) + rest && input == c.line + "\n" + (c.data + (c.end + "\n" + tail))
    ensures var b := more.(chunks := [c] + more.chunks);
            WellFormed(b) && Admits(limits, p, b) && input == Encode(b) + rest
  {
    hide ChunkOk, HasRoom;
    var b := more.(chunks := [c] + more.chunks);
    assert b.chunks[1..] == more.chunks && b.(chunks := b.chunks[1..]) == more;
    ChunkGroups(c, tail);
    Assoc(EncodeChunk(c), Encode(more), rest);
  }

  ghost predicate Sends(limits: Limits, p: Parser, b: Chunked, rest: string, input: string) {
    WellFormed(b) && Admits(limits, p, b) && input == Encode(b) + rest
  }

  /** A body is complete if and only if a well-formed chunked body that is let through stands at
      the start of what arrived; then it is the data of its chunks, and the rest is unread. */
  lemma ChunkedExact(limits: Limits, p: Parser, input: string)
    requires p.state == BodyChunkSize
    ensures Loop(limits, p, input).result == Complete <==> exists b, rest :: Sends(limits, p, b, rest, input)
    ensures forall b, rest :: Sends(limits, p, b, rest, input) ==>
              Loop(limits, p, input) == Ran(AfterBody(p, b), rest, Complete)
  {
    hide Loop, AfterBody, WellFormed, Admits, Encode;
    forall b, rest | Sends(limits, p, b, rest, input)
      ensures Loop(limits, p, input) == Ran(AfterBody(p, b), rest, Complete)
    {
      ChunkedDecodes(limits, p, b, rest);
    }
    if Loop(limits, p, input).result == Complete {
      var b := WasChunked(limits, p, input);
      assert Sends(limits, p, b, Loop(limits, p, input).rest, input);
    }
  }

  /** The canonical encoding: sizes in hexadecimal, no extension, no trailer, CRLF. */
  function Canonical(pieces: seq<string>): Chunked {
    Chunked(seq(|pieces|, i requires 0 <= i < |pieces| => Chunk(Hex(|pieces[i]|) + "\r", pieces[i], "\r")),
            "0\r", [], "\r")
  }

  lemma CanonicalWellFormed(pieces: seq<string>)
    requires forall x :: x in pieces ==> 0 < |x| <= SIZE_MAX
    ensures WellFormed(Canonical(pieces))
  {
    hide Hex, ParseChunkSize;
    var b := Canonical(pieces);
    assert ParseChunkSize(LineText("0\r")) == Some(0) by {
      ChunkSizeRoundTrip(0);
      HexZero();
      assert LineText("0\r") == "0";
    }
    forall c | c in b.chunks ensures ChunkOk(c) {
      var i :| 0 <= i < |b.chunks| && b.chunks[i] == c;
      assert pieces[i] in pieces;
      ChunkSizeRoundTrip(|pieces[i]|);
      HexDenotes(|pieces[i]|);
      assert LineText(Hex(|pieces[i]|) + "\r") == Hex(|pieces[i]|);
    }
  }

  lemma HexZero()
    ensures Hex(0) == "0"
  {
  }

  lemma {:induction false} CanonicalBody(pieces: seq<string>)
    ensures Body(Canonical(pieces).chunks) == Concat(pieces)
  {
    if pieces != [] {
      assert Canonical(pieces).chunks[1..] == Canonical(pieces[1..]).chunks;
      ConcatFront(pieces);
      CanonicalBody(pieces[1..]);
    }
  }

  /** A whole message.  After any head that leaves the parser waiting for chunks, a
      body sent in any nonempty pieces, and delivered in any fragments, is decoded to
      the concatenation of the pieces. */
  lemma ChunkedMessage(limits: Limits, head: string, p: Parser, pieces: seq<string>, rest: string, fragments: seq<string>)
    requires Run(limits, Fresh, head) == Ran(p, "", NeedMore) && p.state == BodyChunkSize
    requires (forall x :: x in pieces ==> 0 < |x| <= SIZE_MAX) && Within(limits, p, Canonical(pieces))
    requires |fragments| >= 1 && Concat(fragments) == head + (Encode(Canonical(pieces)) + rest)
    ensures Feed(limits, Fresh, fragments).result == Complete
    ensures Feed(limits, Fresh, fragments).rest == rest
    ensures Feed(limits, Fresh, fragments).p.response ==
            p.response.(body := p.response.body + Concat(pieces))
  {
    hide Loop, Encode, Canonical, Within, Admits, WellFormed, Feed;
    var b := Canonical(pieces);
    FragmentationIndependent(limits, Fresh, fragments);
    RunSplit(limits, Fresh, head, Encode(b) + rest);
    RunResult(limits, Fresh, head);
    CanonicalWellFormed(pieces);
    CanonicalBody(pieces);
    assert "" + (Encode(b) + rest) == Encode(b) + rest;
    WithinAdmits(limits, p, b);
    ChunkedDecodes(limits, p, b, rest);
  }

  lemma IndexOfIs(s: string, c: char, from: nat, i: nat)
    requires from <= i < |s| && s[i] == c && forall k :: from <= k < i ==> s[k] != c
    ensures IndexOf(s, c, from) == Some(i)
  {
  }
}
