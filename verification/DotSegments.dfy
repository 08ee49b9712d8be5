/** Removing the dot segments of a URL path: the stack of segments that the library
    keeps, against the rewriting of section 5.2.4 of RFC 3986. */
module DotSegments {
  import opened Prelude
  import opened ByteBuffer

  // ---- segments -------------------------------------------------------------------------

  /** The parts between the slashes; there is always at least one. */
  function Segments(s: string): (segs: seq<string>)
    ensures |segs| >= 1
    decreases |s|
  {
    match IndexOf(s, '/', 0)
    case None => [s]
    case Some(i) => [s[..i]] + Segments(s[i + 1..])
  }

  function Join(segs: seq<string>): string
    requires |segs| >= 1
  {
    if |segs| == 1 then segs[0] else segs[0] + "/" + Join(segs[1..])
  }

  /** Every segment behind a slash of its own. */
  function Slashed(segs: seq<string>): string {
    if segs == [] then "" else Slashed(segs[..|segs| - 1]) + "/" + segs[|segs| - 1]
  }

  predicate IsDots(s: string) {
    s == "." || s == ".."
  }

  // ---- the stack algorithm ----------------------------------------------------------------

  datatype Walk = Walk(out: seq<string>, trailingSlash: bool)

  function Pop(out: seq<string>): seq<string> {
    if out == [] then [] else out[..|out| - 1]
  }

  function Visit(w: Walk, seg: string): Walk {
    if seg == "." || seg == "" then w.(trailingSlash := true)
    else if seg == ".." then Walk(Pop(w.out), true)
    else Walk(w.out + [seg], false)
  }

  function VisitAll(w: Walk, segs: seq<string>): Walk
    decreases |segs|
  {
    if segs == [] then w else VisitAll(Visit(w, segs[0]), segs[1..])
  }

  predicate IsAbsolute(path: string) {
    path != "" && path[0] == '/'
  }

  /** The path without its leading slash. */
  function Relative(path: string): string {
    if IsAbsolute(path) then path[1..] else path
  }

  function Render(absolute: bool, w: Walk): string {
    (if absolute then "/" else "")
    + (if w.out == [] then "" else Join(w.out))
    + (if w.trailingSlash && !(absolute && w.out == []) then "/" else "")
  }

  function RemoveDots(path: string): string {
    Render(IsAbsolute(path), VisitAll(Walk([], false), Segments(Relative(path))))
  }

  /** The loop over positions, with the stack of segments. */
  method WalkPath(path: string, start: nat) returns (out: seq<string>, trailing: bool)
    requires start <= |path|
    ensures Walk(out, trailing) == VisitAll(Walk([], false), Segments(path[start..]))
  {
    hide IndexOf, Segments, VisitAll, Visit;
    out, trailing := [], false;
    var pos := start;
    ghost var goal := VisitAll(Walk([], false), Segments(path[start..]));
    while true
      invariant pos <= |path| && VisitAll(Walk(out, trailing), Segments(path[pos..])) == goal
      decreases |path| - pos
    {
      ghost var w, rest := Walk(out, trailing), path[pos..];
      var slash := IndexOf(path, '/', pos);
      IndexShift(path, pos);
      VisitFirst(w, rest);
      out, trailing := VisitSegment(out, trailing, if slash.None? then path[pos..] else path[pos..slash.value]);
      if slash.None? { return; }
      assert rest[..slash.value - pos] == path[pos..slash.value];
      assert rest[slash.value - pos + 1..] == path[slash.value + 1..];
      pos := slash.value + 1;
    }
  }

  method VisitSegment(out: seq<string>, trailing: bool, segment: string) returns (out': seq<string>, trailing': bool)
    ensures Walk(out', trailing') == Visit(Walk(out, trailing), segment)
  {
    out', trailing' := out, trailing;
    if segment == "." {
      trailing' := true;
    } else if segment == ".." {
      if out' != [] { out' := out'[..|out'| - 1]; }
      trailing' := true;
    } else if segment == "" {
      trailing' := true;
    } else {
      out' := out' + [segment];
      trailing' := false;
    }
  }

  lemma VisitFirst(w: Walk, s: string)
    ensures var i := IndexOf(s, '/', 0);
            VisitAll(w, Segments(s)) ==
            if i.None? then Visit(w, s) else VisitAll(Visit(w, s[..i.value]), Segments(s[i.value + 1..]))
  {
    var segs := Segments(s);
    if IndexOf(s, '/', 0).None? {
      assert segs[1..] == [];
    } else {
      assert segs[1..] == Segments(s[IndexOf(s, '/', 0).value + 1..]);
    }
  }

  method RemoveDotSegments(path: string) returns (result: string)
    ensures result == RemoveDots(path)
  {
    hide VisitAll, Segments;
    var absolute := path != "" && path[0] == '/';
    var out, trailing := WalkPath(path, if absolute then 1 else 0);
    assert path[if absolute then 1 else 0..] == Relative(path);
    var joined := JoinLoop(out);
    result := (if absolute then "/" else "") + joined;
    if trailing && !(absolute && out == []) { result := result + "/"; }
  }

  method JoinLoop(out: seq<string>) returns (result: string)
    ensures result == if out == [] then "" else Join(out)
  {
    result := "";
    for n := 0 to |out|
      invariant result == if n == 0 then "" else Join(out[..n])
    {
      assert out[..n + 1] == out[..n] + [out[n]];
      if n > 0 {
        JoinSnoc(out[..n], out[n]);
        result := result + "/";
      }
      result := result + out[n];
    }
    assert out[..|out|] == out;
  }

  lemma IndexShift(s: string, from: nat)
    requires from <= |s|
    ensures IndexOf(s, '/', from).None? <==> IndexOf(s[from..], '/', 0).None?
    ensures IndexOf(s, '/', from).Some? ==> IndexOf(s[from..], '/', 0) == Some(IndexOf(s, '/', from).value - from)
  {
    var a, b := IndexOf(s, '/', from), IndexOf(s[from..], '/', 0);
    if b.Some? { assert s[from + b.value] == '/'; }
    if a.Some? { assert s[from..][a.value - from] == '/'; }
  }

  lemma {:induction false} JoinSnoc(segs: seq<string>, seg: string)
    requires |segs| >= 1
    ensures Join(segs + [seg]) == Join(segs) + "/" + seg
  {
    var all := segs + [seg];
    if |segs| == 1 {
      assert all[1..] == [seg];
    } else {
      assert all[1..] == segs[1..] + [seg];
      JoinSnoc(segs[1..], seg);
      assert Join(all) == segs[0] + "/" + (Join(segs[1..]) + "/" + seg);
    }
  }

  // ---- the rewriting of RFC 3986 -------------------------------------------------------------

  /** Everything up to the last slash, which goes with the segment behind it. */
  function RemoveLast(output: string): string {
    if output == "" then ""
    else if output[|output| - 1] == '/' then output[..|output| - 1]
    else RemoveLast(output[..|output| - 1])
  }

  predicate Starts2(s: string, a: char, b: char) {
    |s| >= 2 && s[0] == a && s[1] == b
  }

  predicate Starts3(s: string, a: char, b: char, c: char) {
    |s| >= 3 && s[0] == a && s[1] == b && s[2] == c
  }

  predicate Starts4(s: string, a: char, b: char, c: char, d: char) {
    |s| >= 4 && s[0] == a && s[1] == b && s[2] == c && s[3] == d
  }

  /** Where the first segment of the input ends, its initial slash included. */
  function FirstEnd(input: string): (k: nat)
    requires input != ""
    ensures 1 <= k <= |input|
  {
    match IndexOf(input, '/', 1) case None => |input| case Some(i) => i
  }

  /** The steps A to E, with the input and the output buffer. */
  function Rewrite(input: string, output: string): string
    decreases |input|
  {
    if input == "" then output
    else if Starts3(input, '.', '.', '/') then Rewrite(input[3..], output)
    else if Starts2(input, '.', '/') then Rewrite(input[2..], output)
    else if Starts3(input, '/', '.', '/') then Rewrite(input[2..], output)
    else if input == "/." then Rewrite("/", output)
    else if Starts4(input, '/', '.', '.', '/') then Rewrite(input[3..], RemoveLast(output))
    else if input == "/.." then Rewrite("/", RemoveLast(output))
    else if IsDots(input) then output
    else
      var k := FirstEnd(input);
      Rewrite(input[k..], output + input[..k])
  }

  // ---- the two agree ---------------------------------------------------------------------------

  predicate Plain(segs: seq<string>) {
    forall i :: 0 <= i < |segs| ==> '/' !in segs[i]
  }

  lemma {:induction false} SegmentsPlain(s: string)
    ensures Plain(Segments(s)) && Join(Segments(s)) == s
    decreases |s|
  {
    hide IndexOf;
    match IndexOf(s, '/', 0)
    case None =>
      assert '/' !in s;
    case Some(i) =>
      var first, rest := s[..i], Segments(s[i + 1..]);
      SegmentsPlain(s[i + 1..]);
      assert s[0..i] == first && '/' !in first;
      assert Segments(s) == [first] + rest && ([first] + rest)[1..] == rest;
      assert s == first + "/" + s[i + 1..];
  }

  lemma {:induction false} RemoveLastSegment(base: string, seg: string)
    requires '/' !in seg
    ensures RemoveLast(base + "/" + seg) == base
    decreases |seg|
  {
    var s := base + "/" + seg;
    assert s[..|s| - 1] == base + "/" + seg[..if seg == "" then 0 else |seg| - 1] || seg == "";
    if seg == "" {
      assert s[..|s| - 1] == base;
    } else {
      RemoveLastSegment(base, seg[..|seg| - 1]);
    }
  }

  lemma PopIsRemoveLast(out: seq<string>)
    requires Plain(out)
    ensures RemoveLast(Slashed(out)) == Slashed(Pop(out))
  {
    if out != [] { RemoveLastSegment(Slashed(out[..|out| - 1]), out[|out| - 1]); }
  }

  lemma FirstEndIs(seg: string, rest: string)
    requires '/' !in seg && (rest == "" || rest[0] == '/')
    ensures FirstEnd("/" + seg + rest) == |seg| + 1
  {
    var s := "/" + seg + rest;
    assert forall i :: 1 <= i <= |seg| ==> s[i] == seg[i - 1];
    assert rest != "" ==> s[|seg| + 1] == '/';
  }

  /** What a segment other than the last does to the stack in the rewriting, where an
      empty one counts like any other. */
  function Passing(out: seq<string>, seg: string): seq<string> {
    if seg == "." then out else if seg == ".." then Pop(out) else out + [seg]
  }

  function Last(out: seq<string>, seg: string): string {
    if seg == "." then Slashed(out) + "/" else if seg == ".." then Slashed(Pop(out)) + "/" else Slashed(out + [seg])
  }

  function Rewritten(out: seq<string>, segs: seq<string>): string
    requires |segs| >= 1
    decreases |segs|
  {
    if |segs| == 1 then Last(out, segs[0]) else Rewritten(Passing(out, segs[0]), segs[1..])
  }

  lemma SlashedSnoc(out: seq<string>, seg: string)
    ensures Slashed(out + [seg]) == Slashed(out) + "/" + seg
  {
    assert (out + [seg])[..|out|] == out;
  }

  /** One of the steps A to D applies. */
  predicate DotStep(s: string) {
    || Starts3(s, '.', '.', '/') || Starts2(s, '.', '/') || Starts3(s, '/', '.', '/') || Starts4(s, '/', '.', '.', '/')
    || s == "/." || s == "/.." || IsDots(s)
  }

  lemma RewriteMoves(s: string, output: string)
    requires s != "" && !DotStep(s)
    ensures Rewrite(s, output) == Rewrite(s[FirstEnd(s)..], output + s[..FirstEnd(s)])
  {
  }

  lemma NoDotStep(seg: string, rest: string)
    requires '/' !in seg && (rest == "" || rest[0] == '/') && !IsDots(seg)
    ensures !DotStep("/" + seg + rest)
  {
    var s := "/" + seg + rest;
    assert s[0] == '/';
    assert forall i :: 0 <= i < |seg| ==> seg[i] == s[i + 1];
    assert |s| > |seg| + 1 ==> s[|seg| + 1] == '/';
    assert |seg| == 1 ==> seg == [seg[0]];
    assert |seg| == 2 ==> seg == [seg[0], seg[1]];
  }

  lemma MoveOn(seg: string, rest: string, output: string)
    requires '/' !in seg && (rest == "" || rest[0] == '/') && !IsDots(seg)
    ensures Rewrite("/" + seg + rest, output) == Rewrite(rest, output + "/" + seg)
  {
    hide Rewrite, DotStep, FirstEnd;
    var s := "/" + seg + rest;
    NoDotStep(seg, rest);
    RewriteMoves(s, output);
    FirstEndIs(seg, rest);
    var k := |seg| + 1;
    assert s[..k] == "/" + seg && s[k..] == rest;
    assert output + ("/" + seg) == output + "/" + seg;
  }

  lemma RewriteSlash(output: string)
    ensures Rewrite("/", output) == output + "/"
  {
    hide Rewrite;
    MoveOn("", "", output);
    assert "/" + "" + "" == "/" && output + "/" + "" == output + "/";
    RewriteNothing(output + "/");
  }

  lemma RewriteNothing(output: string)
    ensures Rewrite("", output) == output
  {
  }

  /** The steps B and C, in the middle and at the end of the input. */
  lemma RewriteDot(rest: string, output: string)
    ensures Rewrite("/./" + rest, output) == Rewrite("/" + rest, output)
    ensures Rewrite("/.", output) == Rewrite("/", output)
  {
    var s := "/./" + rest;
    assert s[2..] == "/" + rest;
  }

  lemma RewriteDotDot(rest: string, output: string)
    ensures Rewrite("/../" + rest, output) == Rewrite("/" + rest, RemoveLast(output))
    ensures Rewrite("/..", output) == Rewrite("/", RemoveLast(output))
  {
    var s := "/../" + rest;
    assert s[3..] == "/" + rest;
  }

  lemma RewriteLast(seg: string, out: seq<string>)
    requires '/' !in seg && Plain(out)
    ensures Rewrite("/" + seg, Slashed(out)) == Last(out, seg)
  {
    hide Rewrite, Slashed, RemoveLast;
    if seg == "." {
      RewriteDot("", Slashed(out));
      RewriteSlash(Slashed(out));
      assert "/" + seg == "/.";
    } else if seg == ".." {
      RewriteDotDot("", Slashed(out));
      PopIsRemoveLast(out);
      RewriteSlash(Slashed(Pop(out)));
      assert "/" + seg == "/..";
    } else {
      MoveOn(seg, "", Slashed(out));
      assert "/" + seg + "" == "/" + seg;
      RewriteNothing(Slashed(out) + "/" + seg);
      SlashedSnoc(out, seg);
    }
  }

  lemma RewritePassing(seg: string, rest: string, out: seq<string>)
    requires '/' !in seg && Plain(out)
    ensures Rewrite("/" + seg + "/" + rest, Slashed(out)) == Rewrite("/" + rest, Slashed(Passing(out, seg)))
  {
    hide Rewrite, Slashed, RemoveLast;
    var s := "/" + seg + "/" + rest;
    if seg == "." {
      assert s == "/./" + rest;
      RewriteDot(rest, Slashed(out));
    } else if seg == ".." {
      assert s == "/../" + rest;
      RewriteDotDot(rest, Slashed(out));
      PopIsRemoveLast(out);
    } else {
      assert s == "/" + seg + ("/" + rest);
      MoveOn(seg, "/" + rest, Slashed(out));
      SlashedSnoc(out, seg);
    }
  }

  lemma {:induction false} RewriteIsWalk(segs: seq<string>, out: seq<string>)
    requires |segs| >= 1 && Plain(segs) && Plain(out)
    ensures Rewrite("/" + Join(segs), Slashed(out)) == Rewritten(out, segs)
    decreases |segs|
  {
    hide Rewrite, Slashed;
    if |segs| == 1 {
      RewriteLast(segs[0], out);
    } else {
      var seg, rest := segs[0], segs[1..];
      RewritePassing(seg, Join(rest), out);
      assert "/" + Join(segs) == "/" + seg + "/" + Join(rest);
      RewriteIsWalk(rest, Passing(out, seg));
    }
  }

  lemma {:induction false} SlashedIsJoin(out: seq<string>)
    requires |out| >= 1
    ensures Slashed(out) == "/" + Join(out)
  {
    var init, last := out[..|out| - 1], out[|out| - 1];
    if |out| == 1 {
      assert Slashed(init) == "";
    } else {
      SlashedIsJoin(init);
      JoinSnoc(init, last);
      assert out == init + [last];
    }
  }

  lemma RenderAbsolute(w: Walk)
    requires w.out == [] ==> w.trailingSlash
    ensures Render(true, w) == Slashed(w.out) + if w.trailingSlash then "/" else ""
  {
    if w.out != [] { SlashedIsJoin(w.out); }
  }

  /** Whether an empty segment is still in effect at the end: one before the last segment
      that was met at some depth, and since which no ".." has come back up to the root. */
  predicate EmptyKept(segs: seq<string>, depth: nat, kept: bool)
    requires |segs| >= 1
    decreases |segs|
  {
    var seg := segs[0];
    var kept' := if seg == ".." then kept && depth > 1 else kept;
    if |segs| == 1 then kept'
    else if seg == "" then EmptyKept(segs[1..], depth + 1, true)
    else if seg == "." then EmptyKept(segs[1..], depth, kept)
    else if seg == ".." then EmptyKept(segs[1..], if depth == 0 then 0 else depth - 1, kept')
    else EmptyKept(segs[1..], depth + 1, kept)
  }

  function Slashes(s: string): nat {
    if s == "" then 0 else Slashes(s[..|s| - 1]) + if s[|s| - 1] == '/' then 1 else 0
  }

  lemma {:induction false} SlashesBehind(s: string, seg: string)
    requires '/' !in seg
    ensures Slashes(s + "/" + seg) == Slashes(s) + 1
    decreases |seg|
  {
    var t := s + "/" + seg;
    if seg == "" {
      assert t[..|t| - 1] == s;
    } else {
      assert t[..|t| - 1] == s + "/" + seg[..|seg| - 1];
      SlashesBehind(s, seg[..|seg| - 1]);
    }
  }

  lemma {:induction false} SlashesOf(out: seq<string>)
    requires Plain(out)
    ensures Slashes(Slashed(out)) == |out|
  {
    if out != [] {
      SlashesOf(out[..|out| - 1]);
      SlashesBehind(Slashed(out[..|out| - 1]), out[|out| - 1]);
    }
  }

  /** The number of slashes in what either walk yields for a last segment. */
  lemma SlashesOfLast(out: seq<string>, seg: string)
    requires Plain(out) && '/' !in seg
    ensures Slashes(Last(out, seg)) == 1 + if seg == ".." then |Pop(out)| else |out|
  {
    hide Slashed, Slashes;
    SlashesOf(out);
    SlashesOf(Pop(out));
    SlashesOf(out + [seg]);
    SlashesBehind(Slashed(out), "");
    SlashesBehind(Slashed(Pop(out)), "");
    assert Slashed(out) + "/" + "" == Slashed(out) + "/" && Slashed(Pop(out)) + "/" + "" == Slashed(Pop(out)) + "/";
  }

  lemma RenderLast(w: Walk, seg: string)
    ensures Render(true, Visit(w, seg)) == Last(w.out, seg)
  {
    hide Render, Slashed, Join;
    var v := Visit(w, seg);
    RenderAbsolute(v);
    SlashedSnoc(w.out, seg);
    assert Slashed(w.out) + "/" + "" == Slashed(w.out) + "/" && Slashed(v.out) + "" == Slashed(v.out);
  }

  /** As long as no empty segment is in effect the two stacks are the same; while one is,
      that of the rewriting is higher. */
  lemma {:induction false} WalkAgainstRewriting(segs: seq<string>, w: Walk, out: seq<string>, kept: bool)
    requires |segs| >= 1 && Plain(segs) && Plain(out) && Plain(w.out)
    requires if kept then |w.out| < |out| else w.out == out
    ensures Render(true, VisitAll(w, segs)) == Rewritten(out, segs) <==> !EmptyKept(segs, |out|, kept)
    decreases |segs|
  {
    hide Render, Slashed, Slashes;
    var seg := segs[0];
    var v := Visit(w, seg);
    if |segs| == 1 {
      assert segs[1..] == [];
      assert VisitAll(v, []) == v;
      RenderLast(w, seg);
      SlashesOfLast(w.out, seg);
      SlashesOfLast(out, seg);
      assert kept && |out| == 1 ==> Pop(w.out) == Pop(out);
    } else {
      WalkAgainstRewriting(segs[1..], v, Passing(out, seg),
                           if seg == ".." then kept && |out| > 1 else kept || seg == "");
    }
  }

  /** On an absolute path, the stack computes what the rewriting of the RFC computes if
      and only if no empty segment stays in effect. */
  lemma AgreesWithRfc(path: string)
    requires IsAbsolute(path)
    ensures RemoveDots(path) == Rewrite(path, "") <==> !EmptyKept(Segments(Relative(path)), 0, false)
  {
    hide Rewrite, VisitAll, Segments, Render, EmptyKept, Rewritten;
    var segs := Segments(Relative(path));
    SegmentsPlain(Relative(path));
    RewriteIsWalk(segs, []);
    WalkAgainstRewriting(segs, Walk([], false), [], false);
    assert path == "/" + Relative(path);
  }

  /** No empty segment but possibly the last: then the two agree. */
  lemma {:induction false} NoneEmpty(segs: seq<string>, depth: nat)
    requires |segs| >= 1 && forall i :: 0 <= i < |segs| - 1 ==> segs[i] != ""
    ensures !EmptyKept(segs, depth, false)
    decreases |segs|
  {
    if |segs| > 1 {
      var seg := segs[0];
      NoneEmpty(segs[1..], if seg == "." then depth else if seg != ".." then depth + 1
                           else if depth == 0 then 0 else depth - 1);
    }
  }

  /** A path on which they differ. */
  lemma EmptySegmentDropped()
    ensures RemoveDots("/a//../b") != Rewrite("/a//../b", "")
  {
    hide RemoveDots, Rewrite;
    var path := "/a//../b";
    var segs := ["a", "", "..", "b"];
    assert Relative(path) == Join(segs);
    SegmentsOfJoin(segs);
    AgreesWithRfc(path);
    assert segs[1..] == ["", "..", "b"] && segs[1..][1..] == ["..", "b"] && segs[1..][1..][1..] == ["b"];
    assert EmptyKept(["b"], 1, true);
    assert EmptyKept(["..", "b"], 2, true);
    assert EmptyKept(["", "..", "b"], 1, false);
  }

  // ---- what the result looks like, on every path ------------------------------------------------

  predicate Good(segs: seq<string>) {
    forall i :: 0 <= i < |segs| ==> segs[i] != "" && '/' !in segs[i] && !IsDots(segs[i])
  }

  lemma {:induction false} WalkGood(w: Walk, segs: seq<string>)
    requires Good(w.out) && Plain(segs)
    ensures Good(VisitAll(w, segs).out)
    ensures segs != [] && VisitAll(w, segs).out == [] ==> VisitAll(w, segs).trailingSlash
    decreases |segs|
  {
    if segs != [] {
      WalkGood(Visit(w, segs[0]), segs[1..]);
      assert segs[1..] == [] ==> VisitAll(w, segs) == Visit(w, segs[0]);
    }
  }

  lemma {:induction false} GoodWalk(w: Walk, segs: seq<string>)
    requires Good(segs)
    ensures VisitAll(w, segs) == Walk(w.out + segs, if segs == [] then w.trailingSlash else false)
    decreases |segs|
  {
    if segs == [] {
      assert w.out + segs == w.out;
    } else {
      GoodWalk(Visit(w, segs[0]), segs[1..]);
      assert (w.out + [segs[0]]) + segs[1..] == w.out + segs;
    }
  }

  lemma {:induction false} VisitAppend(w: Walk, a: seq<string>, b: seq<string>)
    ensures VisitAll(w, a + b) == VisitAll(VisitAll(w, a), b)
    decreases |a|
  {
    if a == [] {
      assert a + b == b;
    } else {
      assert (a + b)[1..] == a[1..] + b;
      VisitAppend(Visit(w, a[0]), a[1..], b);
    }
  }

  lemma FirstSlash(seg: string, rest: string)
    requires '/' !in seg
    ensures IndexOf(seg + "/" + rest, '/', 0) == Some(|seg|)
  {
    var s := seg + "/" + rest;
    assert forall i :: 0 <= i < |seg| ==> s[i] == seg[i];
    assert s[|seg|] == '/';
  }

  lemma {:induction false} SegmentsOfJoin(segs: seq<string>)
    requires |segs| >= 1 && Plain(segs)
    ensures Segments(Join(segs)) == segs
    decreases |segs|
  {
    if |segs| > 1 {
      var s, tail := Join(segs), Join(segs[1..]);
      FirstSlash(segs[0], tail);
      assert s[..|segs[0]|] == segs[0] && s[|segs[0]| + 1..] == tail;
      SegmentsOfJoin(segs[1..]);
    } else {
      assert IndexOf(segs[0], '/', 0).None?;
    }
  }

  /** The segments of a rendered walk: those on the stack, and an empty one behind a
      trailing slash. */
  lemma SegmentsOfRender(absolute: bool, w: Walk)
    requires Good(w.out) && (w.out == [] ==> w.trailingSlash)
    ensures var r := Render(absolute, w);
            && IsAbsolute(r) == (absolute || w.out == [])
            && Segments(Relative(r)) == w.out + if w.trailingSlash then [""] else []
  {
    hide Segments;
    var r := Render(absolute, w);
    if w.out == [] {
      assert r == "/" && Relative(r) == "";
      SegmentsOfJoin([""]);
    } else {
      var segs := w.out + if w.trailingSlash then [""] else [];
      JoinFirst(w.out);
      if w.trailingSlash {
        JoinSnoc(w.out, "");
        assert Join(w.out) + "/" + "" == Join(w.out) + "/";
      } else {
        assert segs == w.out;
      }
      assert Relative(r) == Join(segs) by {
        if absolute { assert r == "/" + Join(segs) && r[1..] == Join(segs); } else { assert r == Join(segs); }
      }
      SegmentsOfJoin(segs);
    }
  }

  lemma JoinFirst(out: seq<string>)
    requires |out| >= 1 && Good(out)
    ensures Join(out) != "" && Join(out)[0] != '/'
  {
    assert out[0][0] in out[0];
  }

  /** No "." and no ".." segment is left, on any path. */
  lemma NoDotsLeft(path: string)
    ensures forall i :: 0 <= i < |Segments(Relative(RemoveDots(path)))| ==>
              !IsDots(Segments(Relative(RemoveDots(path)))[i])
  {
    hide Segments, Render;
    var w := VisitAll(Walk([], false), Segments(Relative(path)));
    SegmentsPlain(Relative(path));
    WalkGood(Walk([], false), Segments(Relative(path)));
    SegmentsOfRender(IsAbsolute(path), w);
  }

  /** Doing it again changes nothing, on any path. */
  lemma Idempotent(path: string)
    ensures RemoveDots(RemoveDots(path)) == RemoveDots(path)
  {
    hide Segments;
    var w := VisitAll(Walk([], false), Segments(Relative(path)));
    var r := RemoveDots(path);
    SegmentsPlain(Relative(path));
    WalkGood(Walk([], false), Segments(Relative(path)));
    SegmentsOfRender(IsAbsolute(path), w);
    WalkAgain(w);
  }

  lemma WalkAgain(w: Walk)
    requires Good(w.out) && (w.out == [] ==> w.trailingSlash)
    ensures VisitAll(Walk([], false), w.out + if w.trailingSlash then [""] else []) == w
  {
    GoodWalk(Walk([], false), w.out);
    assert [] + w.out == w.out;
    if w.trailingSlash {
      VisitAppend(Walk([], false), w.out, [""]);
      assert VisitAll(Walk(w.out, false), [""]) == Walk(w.out, true) by { assert [""][1..] == []; }
    } else {
      assert w.out + [] == w.out;
    }
  }
}
