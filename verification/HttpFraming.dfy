/** The two framings of a body without chunks: a counted one, and one that runs to the
    close. */
module HttpFraming {
  import opened HttpResponse

  lemma CountedBody(limits: Limits, p: Parser, body: string, rest: string)
    requires p.state == BodyLength && p.status == Ok && 0 < p.bodyRemaining == |body|
    ensures Run(limits, p, body + rest)
            == Ran(Took(p, body).(bodyRemaining := 0, state := Done), rest, Complete)
  {
    assert (body + rest)[..|body|] == body && (body + rest)[|body|..] == rest;
    LoopStep(limits, p, body + rest);
  }

  /** After any head that announces a length, a body of that length, in any fragments, is
      delivered as it is, and what follows stays unread. */
  lemma CountedMessage(limits: Limits, head: string, p: Parser, body: string, rest: string, fragments: seq<string>)
    requires Run(limits, Fresh, head) == Ran(p, "", NeedMore) && p.state == BodyLength && |body| == p.bodyRemaining
    requires |fragments| >= 1 && Concat(fragments) == head + (body + rest)
    ensures var r := Feed(limits, Fresh, fragments);
            r.result == Complete && r.rest == rest && r.p.response == p.response.(body := p.response.body + body)
  {
    hide Run, Loop, Feed;
    RunResult(limits, Fresh, head);
    RunSound(limits, head);
    CountedBody(limits, p, body, rest);
    RunSplit(limits, Fresh, head, body + rest);
    assert "" + (body + rest) == body + rest;
    FragmentationIndependent(limits, Fresh, fragments);
  }

  lemma PartOfBody(limits: Limits, p: Parser, part: string)
    requires p.state == BodyLength && p.status == Ok && |part| < p.bodyRemaining
    ensures Run(limits, p, part)
            == Ran(Took(p, part).(bodyRemaining := p.bodyRemaining - |part|), "", NeedMore)
  {
    LoopStep(limits, p, part);
    if part == "" {
      assert p.response.body + "" == p.response.body;
    } else {
      assert part[..|part|] == part && part[|part|..] == "";
      LoopStep(limits, Took(p, part).(bodyRemaining := p.bodyRemaining - |part|), "");
    }
  }

  /** A counted body that is cut off by the close is an error, not a shorter body. */
  lemma CutMessage(limits: Limits, head: string, p: Parser, part: string, fragments: seq<string>)
    requires Run(limits, Fresh, head) == Ran(p, "", NeedMore) && p.state == BodyLength && |part| < p.bodyRemaining
    requires |fragments| >= 1 && Concat(fragments) == head + part
    ensures var r := Feed(limits, Fresh, fragments);
            r.result == NeedMore && r.rest == "" && Close(r.p).1 == Error && Close(r.p).0.status == Disconnected
  {
    hide Run, Loop, Feed;
    RunResult(limits, Fresh, head);
    PartOfBody(limits, p, part);
    RunSplit(limits, Fresh, head, part);
    assert "" + part == part;
    FragmentationIndependent(limits, Fresh, fragments);
  }

  /** A parser that waits is sound. */
  lemma RunSound(limits: Limits, x: string)
    requires Run(limits, Fresh, x).result == NeedMore
    ensures Sound(Run(limits, Fresh, x).p)
  {
    hide Loop;
    LoopSplit(limits, Fresh, x, "");
  }

  lemma OpenBody(limits: Limits, p: Parser, body: string)
    requires p.state == BodyUntilClose && p.status == Ok && !p.closed && |p.response.body| + |body| <= limits.maxBody
    ensures Run(limits, p, body) == Ran(Took(p, body), "", NeedMore)
  {
    LoopStep(limits, p, body);
    if body == "" {
      assert p.response.body + "" == p.response.body;
    } else {
      LoopStep(limits, Took(p, body), "");
    }
  }

  /** Without any framing, everything that arrives within the limit is body, in any
      fragments, and the close completes it. */
  lemma OpenMessage(limits: Limits, head: string, p: Parser, body: string, fragments: seq<string>)
    requires Run(limits, Fresh, head) == Ran(p, "", NeedMore) && p.state == BodyUntilClose
    requires |p.response.body| + |body| <= limits.maxBody
    requires |fragments| >= 1 && Concat(fragments) == head + body
    ensures var r := Feed(limits, Fresh, fragments);
            r.result == NeedMore && r.rest == "" && Close(r.p).1 == Complete && Close(r.p).0.state == Done
            && Close(r.p).0.response == p.response.(body := p.response.body + body)
  {
    hide Run, Loop, Feed;
    RunResult(limits, Fresh, head);
    RunSound(limits, head);
    OpenBody(limits, p, body);
    RunSplit(limits, Fresh, head, body);
    assert "" + body == body;
    FragmentationIndependent(limits, Fresh, fragments);
  }
}
