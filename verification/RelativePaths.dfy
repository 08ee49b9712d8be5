/** Removing the dot segments of a path without a leading slash.  The rewriting of section
    5.2.4 of RFC 3986 leaves a slash in front once a ".." has taken the first segment
    away; the stack of segments does not. */
module RelativePaths {
  import opened Prelude
  import opened DotSegments

  // ---- the rewriting, segment by segment --------------------------------------------------

  /** The output of the rewriting: what stands in front of its first slash, if it has not
      been taken away, and the segments behind. */
  function Base(first: string, out: seq<string>): string {
    first + Slashed(out)
  }

  /** What a segment leaves of the first one. */
  function PassFirst(first: string, out: seq<string>, seg: string): string {
    if seg == ".." && out == [] then "" else first
  }

  function RelativeLast(first: string, out: seq<string>, seg: string): string {
    Base(PassFirst(first, out, seg), if seg == ".." then Pop(out) else out) + "/" + if IsDots(seg) then "" else seg
  }

  function RelativeRewritten(first: string, out: seq<string>, segs: seq<string>): string
    requires |segs| >= 1
    decreases |segs|
  {
    if |segs| == 1 then RelativeLast(first, out, segs[0])
    else RelativeRewritten(PassFirst(first, out, segs[0]), Passing(out, segs[0]), segs[1..])
  }

  /** From the start: dot segments are dropped up to the first other one. */
  function FirstRewritten(segs: seq<string>): string
    requires |segs| >= 1
    decreases |segs|
  {
    if |segs| == 1 then (if IsDots(segs[0]) then "" else segs[0])
    else if IsDots(segs[0]) then FirstRewritten(segs[1..])
    else RelativeRewritten(segs[0], [], segs[1..])
  }

  lemma {:induction false} RemoveAll(s: string)
    requires '/' !in s
    ensures RemoveLast(s) == ""
  {
    if s != "" {
      assert s[|s| - 1] in s;
      RemoveAll(s[..|s| - 1]);
    }
  }

  lemma BaseSnoc(first: string, out: seq<string>, seg: string)
    ensures Base(first, out + [seg]) == Base(first, out) + "/" + seg
  {
    hide Slashed;
    SlashedSnoc(out, seg);
  }

  lemma RemoveLastOfBase(first: string, out: seq<string>)
    requires '/' !in first && Plain(out)
    ensures RemoveLast(Base(first, out)) == Base(PassFirst(first, out, ".."), Pop(out))
  {
    hide RemoveLast, Base;
    if out == [] {
      assert Base(first, out) == first && Base("", []) == "" by { BaseOfNone(first); BaseOfNone(""); }
      RemoveAll(first);
    } else {
      var init, last := out[..|out| - 1], out[|out| - 1];
      assert out == init + [last];
      BaseSnoc(first, init, last);
      RemoveLastSegment(Base(first, init), last);
    }
  }

  lemma BaseOfNone(first: string)
    ensures Base(first, []) == first
  {
  }

  lemma RelativeLastStep(first: string, out: seq<string>, seg: string)
    requires '/' !in first && Plain(out) && '/' !in seg
    ensures Rewrite("/" + seg, Base(first, out)) == RelativeLast(first, out, seg)
  {
    hide Rewrite, Base, RemoveLast;
    var output := Base(first, out);
    if seg == "." {
      RewriteDot("", output);
      RewriteSlash(output);
      assert "/" + seg == "/." && output + "/" + "" == output + "/";
    } else if seg == ".." {
      RewriteDotDot("", output);
      RemoveLastOfBase(first, out);
      RewriteSlash(RemoveLast(output));
      assert "/" + seg == "/.." && RemoveLast(output) + "/" + "" == RemoveLast(output) + "/";
    } else {
      MoveOn(seg, "", output);
      assert "/" + seg + "" == "/" + seg;
      RewriteNothing(output + "/" + seg);
    }
  }

  lemma RelativeStep(first: string, out: seq<string>, seg: string, rest: string)
    requires '/' !in first && Plain(out) && '/' !in seg
    ensures Rewrite("/" + seg + "/" + rest, Base(first, out))
            == Rewrite("/" + rest, Base(PassFirst(first, out, seg), Passing(out, seg)))
  {
    hide Rewrite, Base, RemoveLast;
    var s, output := "/" + seg + "/" + rest, Base(first, out);
    if seg == "." {
      assert s == "/./" + rest;
      RewriteDot(rest, output);
    } else if seg == ".." {
      assert s == "/../" + rest;
      RewriteDotDot(rest, output);
      RemoveLastOfBase(first, out);
    } else {
      assert s == "/" + seg + ("/" + rest);
      MoveOn(seg, "/" + rest, output);
      BaseSnoc(first, out, seg);
    }
  }

  lemma {:induction false} RewriteIsRelative(first: string, out: seq<string>, segs: seq<string>)
    requires '/' !in first && Plain(out) && |segs| >= 1 && Plain(segs)
    ensures Rewrite("/" + Join(segs), Base(first, out)) == RelativeRewritten(first, out, segs)
    decreases |segs|
  {
    hide Rewrite, Base, RelativeLast;
    if |segs| == 1 {
      RelativeLastStep(first, out, segs[0]);
    } else {
      var seg, rest := segs[0], segs[1..];
      RelativeStep(first, out, seg, Join(rest));
      assert "/" + Join(segs) == "/" + seg + "/" + Join(rest);
      RewriteIsRelative(PassFirst(first, out, seg), Passing(out, seg), rest);
    }
  }

  /** A first segment that is moved as it is. */
  lemma MoveFirst(seg: string, rest: string)
    requires '/' !in seg && !IsDots(seg) && (rest == "" || rest[0] == '/')
    ensures Rewrite(seg + rest, "") == Rewrite(rest, seg)
  {
    hide Rewrite, DotStep;
    var s := seg + rest;
    if seg == "" {
      assert s == rest;
    } else {
      NoDotStepFirst(seg, rest);
      RewriteMoves(s, "");
      assert forall i :: 0 <= i < |seg| ==> s[i] == seg[i];
      assert rest != "" ==> s[|seg|] == '/';
      assert FirstEnd(s) == |seg| && s[..|seg|] == seg && s[|seg|..] == rest && "" + seg == seg;
    }
  }

  lemma NoDotStepFirst(seg: string, rest: string)
    requires '/' !in seg && !IsDots(seg) && (rest == "" || rest[0] == '/') && seg != ""
    ensures !DotStep(seg + rest)
  {
    var s := seg + rest;
    assert forall i :: 0 <= i < |seg| ==> seg[i] == s[i] != '/';
    assert |s| > |seg| ==> s[|seg|] == '/';
    assert |seg| == 1 ==> seg == [seg[0]];
    assert |seg| == 2 ==> seg == [seg[0], seg[1]];
  }

  lemma DropFirst(rest: string)
    ensures Rewrite("./" + rest, "") == Rewrite(rest, "") && Rewrite("../" + rest, "") == Rewrite(rest, "")
    ensures Rewrite(".", "") == "" && Rewrite("..", "") == ""
  {
    assert ("./" + rest)[2..] == rest && ("../" + rest)[3..] == rest;
  }

  lemma {:induction false} RewriteIsFirst(segs: seq<string>)
    requires |segs| >= 1 && Plain(segs)
    ensures Rewrite(Join(segs), "") == FirstRewritten(segs)
    decreases |segs|
  {
    hide Rewrite, RelativeRewritten;
    var seg := segs[0];
    if |segs| == 1 {
      DropFirst("");
      if !IsDots(seg) {
        MoveFirst(seg, "");
        assert seg + "" == seg;
        RewriteNothing(seg);
      }
    } else {
      var tail := Join(segs[1..]);
      if IsDots(seg) {
        DropFirst(tail);
        assert Join(segs) == (if seg == "." then "./" + tail else "../" + tail);
        RewriteIsFirst(segs[1..]);
      } else {
        assert Join(segs) == seg + ("/" + tail);
        MoveFirst(seg, "/" + tail);
        BaseOfNone(seg);
        RewriteIsRelative(seg, [], segs[1..]);
      }
    }
  }

  // ---- when the two agree ---------------------------------------------------------------------

  /** Behind the first segment.  `anchored` is whether it is still there, `depth` the
      number of segments behind it, and `kept` whether an empty one has been met. */
  predicate StaysAlike(segs: seq<string>, depth: nat, anchored: bool, kept: bool)
    requires |segs| >= 1
    decreases |segs|
  {
    var seg := segs[0];
    var up := if depth == 0 then 0 else depth - 1;
    if |segs| == 1 then
      if seg == ".." && depth == 0 then true
      else if anchored then !kept
      else if seg == ".." then up == 0
      else (seg == "." || seg == "") && depth == 0
    else if seg == "." then StaysAlike(segs[1..], depth, anchored, kept)
    else if seg == ".." then StaysAlike(segs[1..], up, anchored && depth > 0, kept)
    else StaysAlike(segs[1..], depth + 1, anchored, kept || seg == "")
  }

  /** There is a segment that is not a dot segment, and what follows it neither takes it
      away for good nor leaves an empty one in effect. */
  predicate RelativeAlike(segs: seq<string>)
    requires |segs| >= 1
    decreases |segs|
  {
    if |segs| == 1 then segs[0] != "" && !IsDots(segs[0])
    else if IsDots(segs[0]) then RelativeAlike(segs[1..])
    else StaysAlike(segs[1..], 0, segs[0] != "", false)
  }

  lemma {:induction false} SlashFree(s: string)
    requires '/' !in s
    ensures Slashes(s) == 0
  {
    if s != "" {
      assert s[|s| - 1] in s;
      SlashFree(s[..|s| - 1]);
    }
  }

  lemma {:induction false} SlashesOfBase(first: string, out: seq<string>)
    requires '/' !in first && Plain(out)
    ensures Slashes(Base(first, out)) == |out|
    decreases |out|
  {
    hide Base, Slashes;
    if out == [] {
      BaseOfNone(first);
      SlashFree(first);
    } else {
      var init, last := out[..|out| - 1], out[|out| - 1];
      assert out == init + [last];
      BaseSnoc(first, init, last);
      SlashesOfBase(first, init);
      SlashesBehind(Base(first, init), last);
    }
  }

  lemma {:induction false} JoinIsBase(segs: seq<string>)
    requires |segs| >= 1
    ensures Join(segs) == Base(segs[0], segs[1..])
    decreases |segs|
  {
    hide Base, Join;
    if |segs| == 1 {
      BaseOfNone(segs[0]);
      JoinOfOne(segs);
      assert segs[1..] == [];
    } else {
      var init, last := segs[..|segs| - 1], segs[|segs| - 1];
      assert segs == init + [last] && segs[1..] == init[1..] + [last];
      JoinSnoc(init, last);
      JoinIsBase(init);
      BaseSnoc(init[0], init[1..], last);
    }
  }

  lemma JoinOfOne(segs: seq<string>)
    requires |segs| == 1
    ensures Join(segs) == segs[0]
  {
  }

  /** What the stack renders behind the last segment. */
  function StackText(out: seq<string>, seg: string): string {
    if out == [] then (if IsDots(seg) || seg == "" then "/" else seg)
    else Base(out[0], out[1..]) + "/" + if IsDots(seg) then "" else seg
  }

  lemma RenderIsStack(w: Walk, seg: string)
    requires Good(w.out) && '/' !in seg
    ensures Render(false, Visit(w, seg)) == StackText(if seg == ".." then Pop(w.out) else w.out, seg)
  {
    hide Base, Join;
    var out := Visit(w, seg).out;
    if out != [] { JoinIsBase(out); }
    if IsDots(seg) || seg == "" {
      if out != [] { assert Base(out[0], out[1..]) + "/" + "" == Base(out[0], out[1..]) + "/"; }
    } else if w.out == [] {
      assert out == [seg] && out[1..] == [];
      BaseOfNone(seg);
    } else {
      assert out[0] == w.out[0] && out[1..] == w.out[1..] + [seg];
      BaseSnoc(w.out[0], w.out[1..], seg);
    }
  }

  lemma SlashesOfStack(out: seq<string>, seg: string)
    requires Good(out) && '/' !in seg
    ensures Slashes(StackText(out, seg)) == if out == [] && (IsDots(seg) || seg == "") then 1 else |out|
    ensures StackText(out, seg)[0] == '/' <==> out == [] && (IsDots(seg) || seg == "")
  {
    hide Base, Slashes;
    var tail := if IsDots(seg) then "" else seg;
    if out == [] {
      SlashFree(seg);
      SlashesBehind("", "");
      SlashFree("");
      assert "" + "/" + "" == "/";
    } else {
      assert Good(out) && out[0] != "" && '/' !in out[0];
      BaseBegins(out[0], out[1..]);
      SlashesOfBase(out[0], out[1..]);
      SlashesBehind(Base(out[0], out[1..]), tail);
    }
  }

  lemma BaseBegins(first: string, out: seq<string>)
    requires first != "" && '/' !in first
    ensures Base(first, out) != "" && Base(first, out)[0] != '/'
  {
    assert first[0] in first;
  }

  lemma SlashesOfRelativeLast(first: string, out: seq<string>, seg: string)
    requires '/' !in first && Plain(out) && '/' !in seg
    ensures Slashes(RelativeLast(first, out, seg)) == 1 + if seg == ".." then |Pop(out)| else |out|
  {
    hide Base, Slashes;
    var rest := if seg == ".." then Pop(out) else out;
    SlashesOfBase(PassFirst(first, out, seg), rest);
    SlashesBehind(Base(PassFirst(first, out, seg), rest), if IsDots(seg) then "" else seg);
  }

  /** How the two stacks stand to each other. */
  ghost predicate Stand(w: Walk, first: string, out: seq<string>, kept: bool) {
    && Good(w.out) && '/' !in first && Plain(out)
    && if first == "" then |w.out| <= |out|
       else if kept then |w.out| <= |out|
       else w.out == [first] + out
  }

  lemma StandsOn(w: Walk, first: string, out: seq<string>, kept: bool, seg: string)
    requires Stand(w, first, out, kept) && '/' !in seg
    ensures Stand(Visit(w, seg), PassFirst(first, out, seg), Passing(out, seg), kept || seg == "")
  {
    if seg == ".." && first != "" && !kept && out != [] {
      assert Pop(w.out) == [first] + Pop(out);
    } else if seg != "." && seg != ".." && first != "" && !kept {
      Assoc([first], out, [seg]);
    }
  }

  /** On the last segment, while the first one is there. */
  lemma AnchoredEnd(w: Walk, first: string, out: seq<string>, kept: bool, seg: string)
    requires Stand(w, first, out, kept) && '/' !in seg && first != "" && !(seg == ".." && out == [])
    ensures Render(false, Visit(w, seg)) == RelativeLast(first, out, seg) <==> !kept
  {
    hide Slashes, Base, Render, Visit;
    var stack, rest := if seg == ".." then Pop(w.out) else w.out, if seg == ".." then Pop(out) else out;
    RenderIsStack(w, seg);
    assert Good(stack);
    if kept {
      SlashesOfStack(stack, seg);
      SlashesOfRelativeLast(first, out, seg);
      BaseBegins(first, rest);
    } else {
      assert stack[0] == first && stack[1..] == rest;
    }
  }

  /** On the last segment, when a slash is in front of everything. */
  lemma RootedEnd(w: Walk, out: seq<string>, kept: bool, seg: string)
    requires Stand(w, "", out, kept) && '/' !in seg
    ensures Render(false, Visit(w, seg)) == RelativeLast("", out, seg) <==>
            (IsDots(seg) || seg == "") && (if seg == ".." then Pop(out) else out) == []
  {
    hide Slashes, Base, Render, Visit;
    var stack, rest := if seg == ".." then Pop(w.out) else w.out, if seg == ".." then Pop(out) else out;
    RenderIsStack(w, seg);
    assert Good(stack);
    SlashesOfStack(stack, seg);
    SlashesOfRelativeLast("", out, seg);
    RootedBegins(rest, if IsDots(seg) then "" else seg);
    if rest == [] { BaseOfNone(""); }
  }

  lemma RootedBegins(out: seq<string>, tail: string)
    ensures (Base("", out) + "/" + tail)[0] == '/'
  {
    hide Join;
    if out != [] { SlashedIsJoin(out); }
  }

  /** A ".." that takes the first segment away at the very end. */
  lemma TakenEnd(w: Walk, first: string, kept: bool)
    requires Stand(w, first, [], kept)
    ensures Render(false, Visit(w, "..")) == RelativeLast(first, [], "..")
  {
    hide Slashes, Render, Visit;
    RenderIsStack(w, "..");
    assert Pop(w.out) == [];
    BaseOfNone("");
  }

  lemma LastAlike(w: Walk, first: string, out: seq<string>, kept: bool, segs: seq<string>)
    requires Stand(w, first, out, kept) && |segs| == 1 && '/' !in segs[0]
    ensures Render(false, Visit(w, segs[0])) == RelativeLast(first, out, segs[0])
            <==> StaysAlike(segs, |out|, first != "", kept)
  {
    hide Stand, Render, Visit, RelativeLast;
    var seg := segs[0];
    if seg == ".." && out == [] {
      TakenEnd(w, first, kept);
    } else if first != "" {
      AnchoredEnd(w, first, out, kept, seg);
    } else {
      RootedEnd(w, out, kept, seg);
    }
  }

  lemma {:induction false} RelativeAgainstRewriting(
      segs: seq<string>, w: Walk, first: string, out: seq<string>, kept: bool)
    requires |segs| >= 1 && Plain(segs) && Stand(w, first, out, kept)
    ensures Render(false, VisitAll(w, segs)) == RelativeRewritten(first, out, segs)
            <==> StaysAlike(segs, |out|, first != "", kept)
    decreases |segs|
  {
    hide Render, Visit, RelativeLast, Stand;
    var seg := segs[0];
    if |segs| == 1 {
      assert segs[1..] == [] && VisitAll(Visit(w, seg), []) == Visit(w, seg);
      LastAlike(w, first, out, kept, segs);
    } else {
      StandsOn(w, first, out, kept, seg);
      RelativeAgainstRewriting(segs[1..], Visit(w, seg), PassFirst(first, out, seg), Passing(out, seg), kept || seg == "");
    }
  }

  lemma {:induction false} FirstAgainstRewriting(segs: seq<string>, trailing: bool)
    requires |segs| >= 1 && Plain(segs)
    ensures Render(false, VisitAll(Walk([], trailing), segs)) == FirstRewritten(segs) <==> RelativeAlike(segs)
    decreases |segs|
  {
    hide Render, RelativeRewritten, StaysAlike;
    var seg := segs[0];
    var v := Visit(Walk([], trailing), seg);
    if |segs| == 1 {
      assert segs[1..] == [] && VisitAll(v, []) == v;
      RenderIsStack(Walk([], trailing), seg);
    } else if IsDots(seg) {
      FirstAgainstRewriting(segs[1..], true);
    } else {
      assert seg != "" ==> v.out == [seg] + [];
      RelativeAgainstRewriting(segs[1..], v, seg, [], false);
    }
  }

  /** On a path without a leading slash, the stack computes what the rewriting computes if
      and only if its segments are such. */
  lemma RelativeAgreesWithRfc(path: string)
    requires !IsAbsolute(path)
    ensures RemoveDots(path) == Rewrite(path, "") <==> RelativeAlike(Segments(path))
  {
    hide Rewrite, VisitAll, Segments, Render, RelativeAlike, FirstRewritten;
    SegmentsPlain(path);
    RewriteIsFirst(Segments(path));
    FirstAgainstRewriting(Segments(path), false);
  }

  /** A path on which they differ: "b" against "/b". */
  lemma FirstSegmentTaken()
    ensures RemoveDots("a/../b") != Rewrite("a/../b", "")
  {
    hide RemoveDots, Rewrite, RelativeAlike;
    var segs := ["a", "..", "b"];
    TakenSegments(segs);
    SegmentsOfJoin(segs);
    RelativeAgreesWithRfc("a/../b");
  }

  lemma TakenSegments(segs: seq<string>)
    requires segs == ["a", "..", "b"]
    ensures "a/../b" == Join(segs) && !RelativeAlike(segs)
  {
    assert segs[1..] == ["..", "b"] && segs[1..][1..] == ["b"];
    assert Join(["b"]) == "b" && Join(["..", "b"]) == "../b";
    assert !StaysAlike(["b"], 0, false, false);
    assert !StaysAlike(["..", "b"], 0, true, false);
  }

  /** They agree whenever the path begins with a segment that is neither empty nor dots,
      and has no empty one before its last and no "..". */
  lemma {:induction false} PlainPathsAgree(segs: seq<string>, depth: nat)
    requires |segs| >= 1 && forall i :: 0 <= i < |segs| ==> segs[i] != ".." && (i < |segs| - 1 ==> segs[i] != "")
    ensures StaysAlike(segs, depth, true, false)
    decreases |segs|
  {
    if |segs| > 1 { PlainPathsAgree(segs[1..], if segs[0] == "." then depth else depth + 1); }
  }
}
