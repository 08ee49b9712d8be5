/** The text helpers that the HTTP and the XML side share. */
module Text {
  import opened Prelude

  predicate IsSpace(c: char) {
    c == ' ' || c == '\t' || c == '\r' || c == '\n'
  }

  function TrimLeft(s: string): string {
    if s != "" && IsSpace(s[0]) then TrimLeft(s[1..]) else s
  }

  function TrimRight(s: string): string {
    if s != "" && IsSpace(s[|s| - 1]) then TrimRight(s[..|s| - 1]) else s
  }

  function Trim(s: string): string {
    TrimRight(TrimLeft(s))
  }

  /** The two index loops. */
  method TrimIndices(text: string) returns (t: string)
    ensures t == Trim(text)
  {
    var begin, end := 0, |text|;
    assert text[0..] == text;
    while begin < end && IsSpace(text[begin])
      invariant begin <= end == |text| && TrimLeft(text[begin..]) == TrimLeft(text)
    {
      assert text[begin..][1..] == text[begin + 1..];
      begin := begin + 1;
    }
    ghost var left := text[begin..];
    assert text[begin..end] == left;
    while end > begin && IsSpace(text[end - 1])
      invariant begin <= end <= |text| && TrimRight(text[begin..end]) == TrimRight(left)
    {
      assert text[begin..end][..end - begin - 1] == text[begin..end - 1];
      end := end - 1;
    }
    t := text[begin..end];
  }

  ghost predicate AllSpace(s: string) {
    forall i :: 0 <= i < |s| ==> IsSpace(s[i])
  }

  /** Starts and ends with something other than whitespace, or is empty. */
  ghost predicate Trimmed(s: string) {
    s != "" ==> !IsSpace(s[0]) && !IsSpace(s[|s| - 1])
  }

  lemma {:induction false} TrimLeftSplits(s: string)
    ensures var t := TrimLeft(s);
            && |t| <= |s| && t == s[|s| - |t|..] && AllSpace(s[..|s| - |t|])
            && (t != "" ==> !IsSpace(t[0]))
  {
    if s != "" && IsSpace(s[0]) { TrimLeftSplits(s[1..]); }
  }

  lemma {:induction false} TrimRightSplits(s: string)
    ensures var t := TrimRight(s);
            && |t| <= |s| && t == s[..|t|] && AllSpace(s[|t|..])
            && (t != "" ==> !IsSpace(t[|t| - 1]))
  {
    if s != "" && IsSpace(s[|s| - 1]) {
      var init := s[..|s| - 1];
      TrimRightSplits(init);
      assert s[|TrimRight(init)|..] == init[|TrimRight(init)|..] + [s[|s| - 1]];
    }
  }

  /** Trimming splits off whitespace at both ends, and all of it. */
  lemma TrimSplits(s: string) returns (before: string, after: string)
    ensures s == before + Trim(s) + after
    ensures AllSpace(before) && AllSpace(after) && Trimmed(Trim(s))
  {
    hide TrimLeft, TrimRight;
    var l := TrimLeft(s);
    var t := TrimRight(l);
    TrimLeftSplits(s);
    TrimRightSplits(l);
    before, after := s[..|s| - |l|], l[|t|..];
  }

  lemma TrimmedIsTrim(s: string)
    requires Trimmed(s)
    ensures Trim(s) == s
  {
  }

  function Lower(c: char): char {
    if 'A' <= c <= 'Z' then (c as int - 'A' as int + 'a' as int) as char else c
  }

  /** Equal up to the case of the ASCII letters. */
  predicate IEquals(a: string, b: string) {
    |a| == |b| && forall i :: 0 <= i < |a| ==> Lower(a[i]) == Lower(b[i])
  }

  predicate IStartsWith(s: string, prefix: string) {
    |prefix| <= |s| && IEquals(s[..|prefix|], prefix)
  }

  const CRLF: string := "\r\n"

  // ---- numbers --------------------------------------------------------------------------------

  function Digit(c: char, base: nat): (d: Option<nat>)
    ensures d.Some? ==> d.value < base
  {
    if '0' <= c <= '9' && c as nat - '0' as nat < base then Some(c as nat - '0' as nat)
    else if base != 16 then None
    else if 'a' <= c <= 'f' then Some(c as nat - 'a' as nat + 10)
    else if 'A' <= c <= 'F' then Some(c as nat - 'A' as nat + 10)
    else None
  }

  predicate AllDigits(text: string, base: nat) {
    forall i :: 0 <= i < |text| ==> Digit(text[i], base).Some?
  }

  /** The number a string of digits denotes. */
  function Value(text: string, base: nat): nat
    requires AllDigits(text, base)
  {
    if text == "" then 0
    else
      var last := |text| - 1;
      Value(text[..last], base) * base + Digit(text[last], base).value
  }
}
