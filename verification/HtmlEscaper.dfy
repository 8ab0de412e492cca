/** The body escaping of the report mailer: four chained replacements. */
module HtmlEscaper {
  import opened Wrappers

  /** s.replace(c, t) for a one-character c. */
  function Replace(s: string, c: char, t: string): string {
    if s == "" then "" else (if s[0] == c then t else [s[0]]) + Replace(s[1..], c, t)
  }

  /** markdown_body.replace(...).replace(...).replace(...).replace(...) */
  function Escaped(s: string): string {
    Replace(Replace(Replace(Replace(s, '&', "&amp;"), '<', "&lt;"), '>', "&gt;"), '\n', "<br>\n")
  }

  // ---------- one pass ----------

  function Entity(c: char): string {
    if c == '&' then "&amp;"
    else if c == '<' then "&lt;"
    else if c == '>' then "&gt;"
    else if c == '\n' then "<br>\n"
    else [c]
  }

  /** Each character on its own, in a single pass. */
  function SinglePass(s: string): string {
    if s == "" then "" else Entity(s[0]) + SinglePass(s[1..])
  }

  lemma Associates(x: string, y: string, z: string)
    ensures x + (y + z) == (x + y) + z
  {
  }

  lemma ReplaceHead(s: string, c: char, t: string)
    requires s != ""
    ensures Replace(s, c, t) == (if s[0] == c then t else [s[0]]) + Replace(s[1..], c, t)
  {
  }

  lemma {:induction false} ReplaceDistributes(a: string, b: string, c: char, t: string)
    ensures Replace(a + b, c, t) == Replace(a, c, t) + Replace(b, c, t)
  {
    if a == "" {
      assert a + b == b && Replace(a, c, t) == "";
    } else {
      ReplaceHead(a, c, t);
      ReplaceHead(a + b, c, t);
      hide Replace;
      ReplaceDistributes(a[1..], b, c, t);
      assert (a + b)[1..] == a[1..] + b;
      Associates(if a[0] == c then t else [a[0]], Replace(a[1..], c, t), Replace(b, c, t));
    }
  }

  lemma EscapedDistributes(a: string, b: string)
    ensures Escaped(a + b) == Escaped(a) + Escaped(b)
  {
    ReplaceDistributes(a, b, '&', "&amp;");
    var a1, b1 := Replace(a, '&', "&amp;"), Replace(b, '&', "&amp;");
    ReplaceDistributes(a1, b1, '<', "&lt;");
    var a2, b2 := Replace(a1, '<', "&lt;"), Replace(b1, '<', "&lt;");
    ReplaceDistributes(a2, b2, '>', "&gt;");
    ReplaceDistributes(Replace(a2, '>', "&gt;"), Replace(b2, '>', "&gt;"), '\n', "<br>\n");
  }

  lemma {:induction false} ReplaceAbsent(s: string, c: char, t: string)
    requires c !in s
    ensures Replace(s, c, t) == s
  {
    if s != "" {
      ReplaceAbsent(s[1..], c, t);
    }
  }

  lemma ReplaceInChar(c: char, x: char, t: string)
    ensures Replace([c], x, t) == if c == x then t else [c]
  {
    assert [c][1..] == "";
    assert Replace([c][1..], x, t) == "";
  }

  lemma EscapedChar(c: char)
    ensures Escaped([c]) == Entity(c)
  {
    ReplaceInChar(c, '&', "&amp;");
    if c == '&' {
      ReplaceAbsent("&amp;", '<', "&lt;");
      ReplaceAbsent("&amp;", '>', "&gt;");
      ReplaceAbsent("&amp;", '\n', "<br>\n");
    } else {
      ReplaceInChar(c, '<', "&lt;");
      if c == '<' {
        ReplaceAbsent("&lt;", '>', "&gt;");
        ReplaceAbsent("&lt;", '\n', "<br>\n");
      } else {
        ReplaceInChar(c, '>', "&gt;");
        if c == '>' {
          ReplaceAbsent("&gt;", '\n', "<br>\n");
        } else {
          ReplaceInChar(c, '\n', "<br>\n");
        }
      }
    }
  }

  lemma Entities()
    ensures Escaped("&") == "&amp;" && Escaped("<") == "&lt;" && Escaped(">") == "&gt;" && Escaped("\n") == "<br>\n"
    ensures forall c :: c !in "&<>\n" ==> Escaped([c]) == [c]
  {
    hide Escaped;
    forall c: char ensures Escaped([c]) == Entity(c) {
      EscapedChar(c);
    }
  }

  /** The order of the replacements is right: the chain never touches what an earlier one wrote. */
  lemma {:induction false} ChainIsSinglePass(s: string)
    ensures Escaped(s) == SinglePass(s)
  {
    if s != "" {
      EscapedChar(s[0]);
      ChainIsSinglePass(s[1..]);
      EscapedDistributes([s[0]], s[1..]);
      assert s == [s[0]] + s[1..];
    }
  }

  // ---------- decoding ----------

  /** Reads escaped text back; None for text that no escaping produces. */
  function Decode(t: string): Option<string>
    decreases |t|
  {
    if t == "" then Some("")
    else if "&amp;" <= t then Prepend('&', Decode(t[5..]))
    else if "&lt;" <= t then Prepend('<', Decode(t[4..]))
    else if "&gt;" <= t then Prepend('>', Decode(t[4..]))
    else if "<br>\n" <= t then Prepend('\n', Decode(t[5..]))
    else if t[0] == '&' || t[0] == '<' || t[0] == '>' || t[0] == '\n' then None
    else Prepend(t[0], Decode(t[1..]))
  }

  function Prepend(c: char, s: Option<string>): Option<string> {
    if s.None? then None else Some([c] + s.value)
  }

  lemma DecodeEntity(c: char, t: string)
    ensures Decode(Entity(c) + t) == Prepend(c, Decode(t))
  {
    var all := Entity(c) + t;
    assert all[|Entity(c)|..] == t;
    assert Entity(c) <= all;
    assert all[0] == Entity(c)[0];
    if c == '&' || c == '<' || c == '>' {
      assert all[1] == Entity(c)[1];
    }
  }

  /** Decoding recovers every text, so no two texts have the same escaping. */
  lemma {:induction false} RoundTrip(s: string)
    ensures Decode(Escaped(s)) == Some(s)
  {
    ChainIsSinglePass(s);
    if s != "" {
      RoundTrip(s[1..]);
      ChainIsSinglePass(s[1..]);
      DecodeEntity(s[0], SinglePass(s[1..]));
      assert s == [s[0]] + s[1..];
    }
  }

  lemma EscapingIsInjective(a: string, b: string)
    requires Escaped(a) == Escaped(b)
    ensures a == b
  {
    RoundTrip(a);
    RoundTrip(b);
  }

  /** What decodes starts with the entity of the first decoded character. */
  lemma DecodedHead(t: string)
    requires t != "" && Decode(t).Some?
    ensures var s := Decode(t).value;
      s != "" && Entity(s[0]) <= t && Decode(t[|Entity(s[0])|..]) == Some(s[1..])
  {
  }

  /** And what decodes is an escaping: the decoder accepts nothing else. */
  lemma {:induction false} DecodedIsEscaped(t: string)
    requires Decode(t).Some?
    ensures Escaped(Decode(t).value) == t
    decreases |t|
  {
    if t != "" {
      var s := Decode(t).value;
      DecodedHead(t);
      DecodedIsEscaped(t[|Entity(s[0])|..]);
      hide Decode, Escaped;
      ChainIsSinglePass(s);
      ChainIsSinglePass(s[1..]);
    }
  }

  // ---------- what is left of the markup characters ----------

  predicate HoldsAt(t: string, i: nat, what: string) {
    i + |what| <= |t| && t[i..i + |what|] == what
  }

  /**
   * At `i`, '<' and '>' stand only in "<br>" before a line break, and '&' only at the head of
   * one of three entities.
   */
  predicate OnlyLineBreakAt(t: string, i: nat)
    requires i < |t|
  {
    && (t[i] == '<' ==> HoldsAt(t, i, "<br>\n"))
    && (t[i] == '>' ==> i >= 3 && HoldsAt(t, i - 3, "<br>\n"))
    && (t[i] == '&' ==> HoldsAt(t, i, "&amp;") || HoldsAt(t, i, "&lt;") || HoldsAt(t, i, "&gt;"))
  }

  ghost predicate OnlyLineBreaks(t: string) {
    forall i :: 0 <= i < |t| ==> OnlyLineBreakAt(t, i)
  }

  lemma HoldsFurtherOn(e: string, t: string, i: nat, what: string)
    ensures HoldsAt(t, i, what) ==> HoldsAt(e + t, |e| + i, what)
  {
    if HoldsAt(t, i, what) {
      assert (e + t)[|e| + i..|e| + i + |what|] == t[i..i + |what|];
    }
  }

  lemma ShiftOnlyLineBreakAt(e: string, t: string, i: nat)
    requires i < |t| && OnlyLineBreakAt(t, i)
    ensures OnlyLineBreakAt(e + t, |e| + i)
  {
    assert (e + t)[|e| + i] == t[i];
    HoldsFurtherOn(e, t, i, "<br>\n");
    HoldsFurtherOn(e, t, i, "&amp;");
    HoldsFurtherOn(e, t, i, "&lt;");
    HoldsFurtherOn(e, t, i, "&gt;");
    if t[i] == '>' {
      HoldsFurtherOn(e, t, i - 3, "<br>\n");
    }
  }

  lemma EntityOnlyLineBreakAt(c: char, t: string, i: nat)
    requires i < |Entity(c)|
    ensures OnlyLineBreakAt(Entity(c) + t, i)
  {
    var e := Entity(c);
    assert (e + t)[i] == e[i];
    assert (e + t)[0..|e|] == e;
  }

  lemma PrependEntity(c: char, t: string)
    requires OnlyLineBreaks(t)
    ensures OnlyLineBreaks(Entity(c) + t)
  {
    var e := Entity(c);
    forall i | 0 <= i < |e + t| ensures OnlyLineBreakAt(e + t, i) {
      if i < |e| {
        EntityOnlyLineBreakAt(c, t, i);
      } else {
        ShiftOnlyLineBreakAt(e, t, i - |e|);
      }
    }
  }

  /** The escaped body holds no markup but its line breaks. */
  lemma {:induction false} EscapedHasOnlyLineBreaks(s: string)
    ensures OnlyLineBreaks(Escaped(s))
  {
    ChainIsSinglePass(s);
    if s != "" {
      ChainIsSinglePass(s[1..]);
      EscapedHasOnlyLineBreaks(s[1..]);
      PrependEntity(s[0], SinglePass(s[1..]));
    }
  }
}
