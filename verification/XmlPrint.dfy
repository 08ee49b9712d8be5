/** Printing trees, with the library's escaping, and reading back what was printed. */
module XmlPrint {
  import opened Prelude
  import opened ByteBuffer
  import opened Text
  import opened XmlEvents
  import opened XmlSyntax

  // ---- escaping -------------------------------------------------------------------------------

  predicate IsSpecial(c: char) {
    c == '&' || c == '<' || c == '>' || c == '"' || c == '\''
  }

  function EntityName(c: char): string
    requires IsSpecial(c)
  {
    if c == '&' then "amp" else if c == '<' then "lt" else if c == '>' then "gt" else if c == '"' then "quot" else "apos"
  }

  function EscapeChar(c: char): string {
    if IsSpecial(c) then "&" + EntityName(c) + ";" else [c]
  }

  function Escape(s: string): string {
    if s == "" then "" else EscapeChar(s[0]) + Escape(s[1..])
  }

  method XmlEscape(text: string) returns (out: string)
    ensures out == Escape(text)
  {
    hide EscapeChar;
    out := "";
    assert text[0..] == text;
    for i := 0 to |text|
      invariant out + Escape(text[i..]) == Escape(text)
    {
      assert text[i..][1..] == text[i + 1..];
      var piece := EscapeOne(text[i]);
      Assoc(out, piece, Escape(text[i + 1..]));
      out := out + piece;
    }
  }

  method EscapeOne(c: char) returns (piece: string)
    ensures piece == EscapeChar(c)
  {
    match c {
      case '&' => piece := "&amp;";
      case '<' => piece := "&lt;";
      case '>' => piece := "&gt;";
      case '"' => piece := "&quot;";
      case '\'' => piece := "&apos;";
      case _ => piece := [c];
    }
  }

  lemma {:induction false} EscapePlain(s: string)
    requires forall i :: 0 <= i < |s| ==> !IsSpecial(s[i])
    ensures Escape(s) == s
  {
    if s != "" {
      EscapePlain(s[1..]);
      assert [s[0]] + s[1..] == s;
    }
  }

  lemma EntityIs(c: char)
    requires IsSpecial(c)
    ensures var body := EntityName(c);
            2 <= |body| <= 4 && ';' !in body && body[0] != '#' && Entity(body) == Some(c)
  {
  }

  /** An escaped character is a reference up to its semicolon. */
  lemma EscapedIs(c: char, s: string)
    requires IsSpecial(c)
    ensures var t, body := EscapeChar(c) + s, EntityName(c);
            t[0] == '&' && IndexOf(t, ';', 0) == Some(|body| + 1) && t[1..|body| + 1] == body && t[|body| + 2..] == s
  {
    hide IndexOf, EntityName;
    EntityIs(c);
    var body, t := EntityName(c), EscapeChar(c) + s;
    assert t == "&" + body + ";" + s;
    assert t[0] == '&' && t[|body| + 1] == ';' && t[1..|body| + 1] == body;
    SemicolonAt(t, |body| + 1);
  }

  /** A named reference read back. */
  lemma ReferenceOf(c: char, s: string, out: string, reported: nat, limits: Limits)
    requires IsSpecial(c) && reported + |out| + 1 <= limits.maxTextLength
    ensures Reference(EscapeChar(c) + s, out, reported, limits) == Got(out + [c], s)
  {
    hide IndexOf, EntityName, Entity, EscapeChar, IsSpecial;
    EntityIs(c);
    EscapedIs(c, s);
  }

  lemma SemicolonAt(t: string, i: nat)
    requires i < |t| && t[i] == ';' && t[0] != ';' && ';' !in t[1..i]
    ensures IndexOf(t, ';', 0) == Some(i)
  {
    var r := IndexOf(t, ';', 0);
    assert forall k :: 1 <= k < i ==> t[k] == t[1..i][k - 1];
  }

  lemma ValueChar(c: char, s: string, out: string, reported: nat, limits: Limits)
    requires reported + |out| + 1 <= limits.maxTextLength
    ensures ParseValue(EscapeChar(c) + s, '"', out, reported, limits) == ParseValue(s, '"', out + [c], reported, limits)
  {
    var t := EscapeChar(c) + s;
    if IsSpecial(c) {
      ReferenceOf(c, s, out, reported, limits);
    } else {
      assert t[1..] == s;
      var k := Plain(s, '"');
      assert Plain(t, '"') == k + 1;
      assert t[..k + 1] == [c] + s[..k] && t[k + 1..] == s[k..];
      Assoc(out, [c], s[..k]);
      assert k == 0 ==> s[..k] == "" && s[k..] == s && out + [c] + "" == out + [c];
    }
  }

  lemma {:induction false} ValueEscaped(v: string, s: string, out: string, reported: nat, limits: Limits)
    requires reported + |out| + |v| <= limits.maxTextLength
    ensures ParseValue(Escape(v) + s, '"', out, reported, limits) == ParseValue(s, '"', out + v, reported, limits)
    decreases |v|
  {
    hide ParseValue, EscapeChar;
    if v == "" {
      assert Escape(v) + s == s && out + v == out;
    } else {
      ValueChar(v[0], Escape(v[1..]) + s, out, reported, limits);
      Assoc(EscapeChar(v[0]), Escape(v[1..]), s);
      ValueEscaped(v[1..], s, out + [v[0]], reported, limits);
      Assoc(out, [v[0]], v[1..]);
      assert [v[0]] + v[1..] == v;
    }
  }

  lemma RunChar(c: char, s: string, out: string, reported: nat, limits: Limits)
    requires reported + |out| + 1 <= limits.maxTextLength
    ensures ParseRun(EscapeChar(c) + s, out, reported, limits) == ParseRun(s, out + [c], reported, limits)
  {
    var t := EscapeChar(c) + s;
    if IsSpecial(c) {
      ReferenceOf(c, s, out, reported, limits);
    } else {
      assert t[1..] == s;
      var k := Plain(s, '<');
      assert Plain(t, '<') == k + 1;
      assert t[..k + 1] == [c] + s[..k] && t[k + 1..] == s[k..];
      Assoc(out, [c], s[..k]);
      assert k == 0 ==> s[..k] == "" && s[k..] == s && out + [c] + "" == out + [c];
    }
  }

  lemma {:induction false} RunEscaped(v: string, s: string, out: string, reported: nat, limits: Limits)
    requires reported + |out| + |v| <= limits.maxTextLength
    ensures ParseRun(Escape(v) + s, out, reported, limits) == ParseRun(s, out + v, reported, limits)
    decreases |v|
  {
    hide ParseRun, EscapeChar;
    if v == "" {
      assert Escape(v) + s == s && out + v == out;
    } else {
      RunChar(v[0], Escape(v[1..]) + s, out, reported, limits);
      Assoc(EscapeChar(v[0]), Escape(v[1..]), s);
      RunEscaped(v[1..], s, out + [v[0]], reported, limits);
      Assoc(out, [v[0]], v[1..]);
      assert [v[0]] + v[1..] == v;
    }
  }

  // ---- names ----------------------------------------------------------------------------------

  predicate IsName(n: string) {
    n != "" && IsNameStart(n[0]) && forall i :: 0 <= i < |n| ==> IsNameChar(n[i])
  }

  /** A name as written: with its prefix, if there is one. */
  function Written(prefix: string, name: string): string {
    FullName(Name(prefix, name))
  }

  predicate Nameable(prefix: string, name: string, limits: Limits) {
    (prefix == "" || IsName(prefix)) && IsName(name) && |Written(prefix, name)| <= limits.maxNameLength
  }

  /** Neither part of a name nor of what may follow within one. */
  predicate EndsName(rest: string) {
    rest == "" || !(IsNameChar(rest[0]) || rest[0] == ':')
  }

  lemma {:induction false} NameLengthIs(full: string, rest: string)
    requires EndsName(rest) && forall i :: 0 <= i < |full| ==> IsNameChar(full[i]) || full[i] == ':'
    ensures NameLength(full + rest) == |full|
    decreases |full|
  {
    if full == "" {
      assert full + rest == rest;
    } else {
      assert (full + rest)[1..] == full[1..] + rest;
      NameLengthIs(full[1..], rest);
    }
  }

  lemma NoColon(n: string)
    requires IsName(n)
    ensures ':' !in n && IndexOf(n, ':', 0) == None
  {
  }

  lemma SplitWritten(prefix: string, name: string)
    requires (prefix == "" || IsName(prefix)) && IsName(name)
    ensures SplitName(Written(prefix, name)) == Some(Name(prefix, name))
  {
    NoColon(name);
    if prefix != "" {
      NoColon(prefix);
      var full := Written(prefix, name);
      assert full[|prefix|] == ':' && full[..|prefix|] == prefix && full[|prefix| + 1..] == name;
      assert forall i :: 0 <= i < |prefix| ==> full[i] == prefix[i];
      var r := IndexOf(full, ':', 0);
      assert r == Some(|prefix|);
    }
  }

  /** A prefix and a local part around one colon, both of them there, or no colon at all. */
  predicate TwoParts(full: string, n: Name) {
    && full == FullName(n) && ':' !in n.prefix && ':' !in n.local
    && (n.prefix != "" ==> n.local != "" && IsNameStart(n.local[0]))
  }

  lemma ColonAt(prefix: string, local: string)
    requires ':' !in prefix
    ensures var full := prefix + ":" + local;
            IndexOf(full, ':', 0) == Some(|prefix|) && full[..|prefix|] == prefix && full[|prefix| + 1..] == local
  {
    var full := prefix + ":" + local;
    assert full[|prefix|] == ':' && forall i :: 0 <= i < |prefix| ==> full[i] == prefix[i];
  }

  lemma PartsSplit(full: string, n: Name)
    requires TwoParts(full, n)
    ensures SplitName(full) == Some(n)
  {
    hide IndexOf, IsNameStart;
    if n.prefix != "" { ColonAt(n.prefix, n.local); } else { assert IndexOf(full, ':', 0).None?; }
  }

  lemma SplitParts(full: string)
    requires SplitName(full).Some?
    ensures TwoParts(full, SplitName(full).value)
  {
    hide IndexOf, IsNameStart;
    var r := IndexOf(full, ':', 0);
    if r.Some? {
      assert full[0..r.value] == full[..r.value];
      assert full == full[..r.value] + ":" + full[r.value + 1..];
    }
  }

  /** A written name is split exactly when it is of that form, and then that way. */
  lemma SplitExact(full: string, n: Name)
    ensures SplitName(full) == Some(n) <==> TwoParts(full, n)
  {
    hide SplitName, TwoParts;
    if SplitName(full) == Some(n) { SplitParts(full); }
    if TwoParts(full, n) { PartsSplit(full, n); }
  }

  lemma WrittenChars(prefix: string, name: string)
    requires (prefix == "" || IsName(prefix)) && IsName(name)
    ensures var full := Written(prefix, name);
            && full != "" && IsNameStart(full[0])
            && forall i :: 0 <= i < |full| ==> IsNameChar(full[i]) || full[i] == ':'
  {
  }

  lemma NameParses(prefix: string, name: string, rest: string, limits: Limits)
    requires Nameable(prefix, name, limits) && EndsName(rest)
    ensures ParseName(Written(prefix, name) + rest, limits) == Got(Name(prefix, name), rest)
  {
    hide SplitName, NameLength, IsName, Written, IsNameStart, IsNameChar;
    var full := Written(prefix, name);
    WrittenChars(prefix, name);
    NameLengthIs(full, rest);
    SplitWritten(prefix, name);
    assert (full + rest)[0] == full[0] && (full + rest)[..|full|] == full && (full + rest)[|full|..] == rest;
  }

  // ---- attributes -----------------------------------------------------------------------------

  function PrintAttribute(a: (string, string)): string {
    a.0 + "=\"" + Escape(a.1) + "\""
  }

  function PrintAttributes(list: Attributes): string {
    if list == [] then "" else " " + PrintAttribute(list[0]) + PrintAttributes(list[1..])
  }

  /** A name and a value that the parser takes, with what was reported before. */
  predicate AttributeFits(a: (string, string), reported: nat, limits: Limits) {
    && reported + |a.1| <= limits.maxTextLength
    && match SplitName(a.0) case None => false case Some(n) => Nameable(n.prefix, n.local, limits)
  }

  predicate AttributesFit(list: Attributes, reported: nat, limits: Limits) {
    forall i :: 0 <= i < |list| ==> AttributeFits(list[i], reported, limits)
  }

  lemma EqualsParses(rest: string)
    ensures ParseEquals("=\"" + rest) == Got('"', rest)
  {
    var t := "=\"" + rest;
    assert TrimLeft(t) == t && t[1..] == "\"" + rest && TrimLeft(t[1..]) == t[1..] && t[1..][1..] == rest;
  }

  lemma ValueParses(v: string, rest: string, reported: nat, limits: Limits)
    requires reported + |v| <= limits.maxTextLength
    ensures ParseValue(Escape(v) + "\"" + rest, '"', "", reported, limits) == Got(v, rest)
  {
    hide Escape;
    Assoc(Escape(v), "\"", rest);
    ValueEscaped(v, "\"" + rest, "", reported, limits);
    assert "" + v == v && ("\"" + rest)[1..] == rest;
  }

  lemma AttributeParses(a: (string, string), rest: string, reported: nat, limits: Limits)
    requires AttributeFits(a, reported, limits)
    ensures ParseAttribute(PrintAttribute(a) + rest, reported, limits) == Got(a, rest)
  {
    hide ParseName, ParseEquals, ParseValue, Nameable, SplitName, Escape, FullName;
    var n := SplitName(a.0).value;
    SplitParts(a.0);
    var value := Escape(a.1) + "\"" + rest;
    var after := "=\"" + value;
    assert PrintAttribute(a) + rest == a.0 + after;
    assert after[0] == '=';
    NameParses(n.prefix, n.local, after, limits);
    EqualsParses(value);
    ValueParses(a.1, rest, reported, limits);
  }

  lemma FirstOfAttribute(a: (string, string), rest: string, reported: nat, limits: Limits)
    requires AttributeFits(a, reported, limits)
    ensures var t := PrintAttribute(a) + rest;
            t != "" && IsNameStart(t[0]) && TrimLeft(" " + t) == t
  {
    hide Escape, SplitName;
    SplitParts(a.0);
    var n := SplitName(a.0).value;
    WrittenChars(n.prefix, n.local);
    var t := PrintAttribute(a) + rest;
    assert t[0] == a.0[0];
    assert (" " + t)[1..] == t;
  }

  lemma {:induction false} AttributesParse(list: Attributes, rest: string, acc: Attributes, reported: nat, limits: Limits)
    requires AttributesFit(list, reported, limits) && |acc| + |list| <= limits.maxAttributes
    ensures ParseAttributes(PrintAttributes(list) + ">" + rest, acc, reported, limits) == Got(Tag(acc + list, false), rest)
    decreases |list|
  {
    hide ParseAttribute, PrintAttribute, AttributeFits, TrimLeft;
    var s := PrintAttributes(list) + ">" + rest;
    if list == [] {
      NothingToTrim(">" + rest);
      assert s == ">" + rest && s[1..] == rest && acc + list == acc;
    } else {
      var a, more := list[0], PrintAttributes(list[1..]) + ">" + rest;
      var t := PrintAttribute(a) + more;
      assert s == " " + t;
      FirstOfAttribute(a, more, reported, limits);
      AttributeParses(a, more, reported, limits);
      AttributesParse(list[1..], rest, acc + [a], reported, limits);
      Assoc(acc, [a], list[1..]);
      assert [a] + list[1..] == list;
    }
  }

  lemma NothingToTrim(s: string)
    requires s != "" && !IsSpace(s[0])
    ensures TrimLeft(s) == s
  {
  }
}
