/**
 * Ticket input sanitisation: tags are removed in one leftmost pass, then prompt markers,
 * then the text is cut and trimmed.
 */
module Sanitiser {
  import opened Patterns
  import opened PyText
  import opened Wrappers

  const MAX_TICKET_LEN: nat := 4000

  const PROMPT_PATTERNS: seq<Pattern> := [ChatToken, RoleMarker, InstMarker, SentenceToken]

  function Truncate(s: string): string {
    if |s| <= MAX_TICKET_LEN then s else s[..MAX_TICKET_LEN]
  }

  /** The passes in order. */
  function RemoveAll(patterns: seq<Pattern>, s: string): string {
    if patterns == [] then s
    else Remove(patterns[|patterns| - 1], RemoveAll(patterns[..|patterns| - 1], s))
  }

  function Sanitised(text: string): string {
    Strip(Truncate(RemoveAll(PROMPT_PATTERNS, Remove(Tag, text))))
  }

  method SanitiseTicketInput(input: string) returns (text: string)
    ensures text == Sanitised(input)
  {
    text := Remove(Tag, input);
    ghost var stripped := text;
    for k := 0 to |PROMPT_PATTERNS|
      invariant text == RemoveAll(PROMPT_PATTERNS[..k], stripped)
    {
      assert PROMPT_PATTERNS[..k + 1][..k] == PROMPT_PATTERNS[..k];
      text := Remove(PROMPT_PATTERNS[k], text);
    }
    assert PROMPT_PATTERNS[..|PROMPT_PATTERNS|] == PROMPT_PATTERNS;
    text := Strip(Truncate(text));
  }

  // ---------- no tag survives ----------

  /** Any '<' with a '>' further on has one right behind it. */
  ghost predicate TagFree(s: string) {
    forall i, j :: 0 <= i && i + 2 <= j < |s| && s[i] == '<' && s[j] == '>' ==> s[i + 1] == '>'
  }

  lemma OneChar(s: string, j: nat)
    requires j < |s|
    ensures ">" <= s[j..] <==> s[j] == '>'
  {
  }

  /** TagFree says exactly that the tag pattern matches nowhere. */
  lemma TagFreeExactlyWhenNoMatch(s: string)
    ensures TagFree(s) <==> NoMatch(Tag, s)
  {
    NoMatchIsNoEnd(Tag, s, |s|);
    forall j | 0 <= j < |s| ensures ">" <= s[j..] <==> s[j] == '>' {
      OneChar(s, j);
    }
    if NoMatch(Tag, s) {
      hide Describes;
      forall i, j | 0 <= i && i + 2 <= j < |s| && s[i] == '<' && s[j] == '>' ensures s[i + 1] == '>' {
        assert MatchEnd(Tag, s, i).None?;
      }
    }
  }

  lemma {:induction false} SubHasNoNewChars(p: Pattern, s: string, i: nat, c: char)
    requires i <= |s| && c in Sub(p, s, i)
    ensures c in s[i..]
    decreases |s| - i
  {
    hide MatchEnd;
    var e := MatchEnd(p, s, i);
    if e.Some? {
      SubHasNoNewChars(p, s, e.value, c);
      assert s[e.value..] == s[i..][e.value - i..];
    } else if c != s[i] {
      SubHasNoNewChars(p, s, i + 1, c);
      assert s[i + 1..] == s[i..][1..];
    }
  }

  /** A character in front of a tag-free text starts no tag if '>' follows at once or not at all. */
  lemma PrependTagFree(c: char, rest: string)
    requires TagFree(rest)
    requires c == '<' && '>' in rest ==> rest[0] == '>'
    ensures TagFree([c] + rest)
  {
    var s := [c] + rest;
    forall i, j | 0 <= i && i + 2 <= j < |s| && s[i] == '<' && s[j] == '>' ensures s[i + 1] == '>' {
      assert s[j] == rest[j - 1];
      if i > 0 {
        assert rest[i - 1] == '<' && rest[j - 1] == '>';
      }
    }
  }

  lemma {:induction false} TagPassIsTagFree(s: string, i: nat)
    requires i <= |s|
    ensures TagFree(Sub(Tag, s, i))
    decreases |s| - i
  {
    if i < |s| {
      var e := MatchEnd(Tag, s, i);
      if e.Some? {
        TagPassIsTagFree(s, e.value);
      } else {
        var rest := Sub(Tag, s, i + 1);
        TagPassIsTagFree(s, i + 1);
        if s[i] == '<' && '>' in rest {
          SubHasNoNewChars(Tag, s, i + 1, '>');
          var k :| i + 1 <= k < |s| && s[k] == '>';
          OneChar(s, k);
          var j := Find(s, i + 1, ">");
          assert j == i + 1;
          OneChar(s, j);
          assert rest[0] == '>';
        }
        PrependTagFree(s[i], rest);
      }
    }
  }

  /** Matches of these patterns contain no angle bracket. */
  predicate AngleFree(p: Pattern) {
    p == RoleMarker || p == InstMarker
  }

  lemma MatchHasNoAngles(p: Pattern, s: string, i: nat)
    requires AngleFree(p) && i < |s| && MatchEnd(p, s, i).Some?
    ensures forall k :: i <= k < MatchEnd(p, s, i).value ==> s[k] != '<' && s[k] != '>'
  {
    var e := MatchEnd(p, s, i).value;
    if p == RoleMarker {
      var j := SkipSpaces(s, i + 3);
      assert forall k :: i <= k < i + 3 ==> s[k] == s[i..][k - i] == '#';
    } else if "[INST]" <= s[i..] {
      assert forall k :: i <= k < i + 6 ==> s[k] == "[INST]"[k - i];
    } else {
      assert forall k :: i <= k < i + 7 ==> s[k] == "[/INST]"[k - i];
    }
  }

  lemma BracketStays(p: Pattern, s: string, i: nat)
    requires AngleFree(p) && i < |s| && s[i] == '>'
    ensures ">" <= Sub(p, s, i)
  {
    if MatchEnd(p, s, i).Some? {
      MatchHasNoAngles(p, s, i);
    }
  }

  /** Removing text without angle brackets never brings a tag together. */
  lemma {:induction false} PassKeepsTagFree(p: Pattern, s: string, i: nat)
    requires AngleFree(p) && i <= |s| && TagFree(s)
    ensures TagFree(Sub(p, s, i))
    decreases |s| - i
  {
    if i < |s| {
      hide MatchEnd;
      var e := MatchEnd(p, s, i);
      if e.Some? {
        PassKeepsTagFree(p, s, e.value);
      } else {
        var rest := Sub(p, s, i + 1);
        PassKeepsTagFree(p, s, i + 1);
        if s[i] == '<' && '>' in rest {
          SubHasNoNewChars(p, s, i + 1, '>');
          var k :| i + 1 <= k < |s| && s[k] == '>';
          assert s[i + 1] == '>';
          BracketStays(p, s, i + 1);
        }
        PrependTagFree(s[i], rest);
      }
    }
  }

  /** Tag-free text has no '<' with another character behind it and a '>' further on. */
  lemma NoClosedAngle(s: string, i: nat, j: nat)
    requires TagFree(s) && i + 2 <= j < |s| && s[j] == '>' && s[i + 1] != '>'
    ensures s[i] != '<'
  {
  }

  /** On tag-free text the two patterns written with angle brackets match nowhere. */
  lemma AngleMarkersGone(s: string)
    requires TagFree(s)
    ensures NoMatch(ChatToken, s) && NoMatch(SentenceToken, s)
  {
    hide Describes;
    NoMatchIsNoEnd(ChatToken, s, |s|);
    NoMatchIsNoEnd(SentenceToken, s, |s|);
    forall i | 0 <= i < |s| ensures MatchEnd(ChatToken, s, i).None? && MatchEnd(SentenceToken, s, i).None? {
      if MatchEnd(ChatToken, s, i).Some? {
        var j := Find(s, i + 2, "|>");
        CharsOfPrefix(s, i, "<|");
        CharsOfPrefix(s, j, "|>");
        NoClosedAngle(s, i, j + 1);
      } else if "<s>" <= s[i..] {
        CharsOfPrefix(s, i, "<s>");
        NoClosedAngle(s, i, i + 2);
      } else if "</s>" <= s[i..] {
        CharsOfPrefix(s, i, "</s>");
        NoClosedAngle(s, i, i + 3);
      }
    }
  }

  // ---------- the result ----------

  lemma RemoveAllAppend(patterns: seq<Pattern>, p: Pattern, s: string)
    ensures RemoveAll(patterns + [p], s) == Remove(p, RemoveAll(patterns, s))
  {
    assert (patterns + [p])[..|patterns|] == patterns;
  }

  lemma FourPasses(s: string)
    ensures RemoveAll(PROMPT_PATTERNS, s)
         == Remove(SentenceToken, Remove(InstMarker, Remove(RoleMarker, Remove(ChatToken, s))))
  {
    RemoveAllAppend([], ChatToken, s);
    RemoveAllAppend([] + [ChatToken], RoleMarker, s);
    RemoveAllAppend([] + [ChatToken] + [RoleMarker], InstMarker, s);
    RemoveAllAppend([] + [ChatToken] + [RoleMarker] + [InstMarker], SentenceToken, s);
    assert PROMPT_PATTERNS == [] + [ChatToken] + [RoleMarker] + [InstMarker] + [SentenceToken];
  }

  lemma SliceTagFree(s: string, i: nat, j: nat)
    requires TagFree(s) && i <= j <= |s|
    ensures TagFree(s[i..j])
  {
    var t := s[i..j];
    forall a, b | 0 <= a && a + 2 <= b < |t| && t[a] == '<' && t[b] == '>' ensures t[a + 1] == '>' {
      assert s[i + a] == '<' && s[i + b] == '>';
    }
  }

  /**
   * For every text, the result is free of tags and a second tag pass leaves it alone; the
   * passes for chat and sentence tokens find nothing to do; at most 4000 characters remain.
   */
  lemma OutputIsTagFree(text: string)
    ensures NoMatch(Tag, Sanitised(text)) && Remove(Tag, Sanitised(text)) == Sanitised(text)
    ensures |Sanitised(text)| <= 4000
    ensures Sanitised(text) == Strip(Truncate(Remove(InstMarker, Remove(RoleMarker, Remove(Tag, text)))))
  {
    var t0 := Remove(Tag, text);
    var t2 := Remove(RoleMarker, t0);
    var t3 := Remove(InstMarker, t2);
    TagPassIsTagFree(text, 0);
    AngleMarkersGone(t0);
    RemoveIsIdentityExactlyWhen(ChatToken, t0);
    PassKeepsTagFree(RoleMarker, t0, 0);
    PassKeepsTagFree(InstMarker, t2, 0);
    AngleMarkersGone(t3);
    RemoveIsIdentityExactlyWhen(SentenceToken, t3);
    FourPasses(t0);
    var cut := Truncate(t3);
    SliceTagFree(t3, 0, |cut|);
    assert cut == t3[0..|cut|];
    var i, j := StripIsSlice(cut);
    SliceTagFree(cut, i, j);
    TagFreeExactlyWhenNoMatch(Sanitised(text));
    RemoveIsIdentityExactlyWhen(Tag, Sanitised(text));
  }

  /** What the tag, role and instruction passes leave is cut after 4000 characters and trimmed. */
  lemma OutputIsTrimmedCut(text: string)
    ensures var left := Remove(InstMarker, Remove(RoleMarker, Remove(Tag, text)));
      IsTrimOf(Sanitised(text), if |left| <= 4000 then left else left[..4000])
  {
    OutputIsTagFree(text);
    StripTrims(Truncate(Remove(InstMarker, Remove(RoleMarker, Remove(Tag, text)))));
  }

  /** A text with a tag gives what the text without it gives. */
  lemma FirstTagLeavesNoTrace(u: string, w: string, v: string)
    requires '<' !in u && w != "" && '>' !in w
    ensures Sanitised(u + "<" + w + ">" + v) == Sanitised(u + v)
  {
    TagIsRemoved(u, w, v);
    PlainStartStays(u, v);
  }

  lemma EveryPattern(s: string)
    ensures (forall p: Pattern :: NoMatch(p, s)) <==>
      && NoMatch(Tag, s) && NoMatch(ChatToken, s) && NoMatch(RoleMarker, s)
      && NoMatch(InstMarker, s) && NoMatch(SentenceToken, s)
  {
  }

  lemma PassesKeepExactlyWhen(s: string)
    ensures var t := RemoveAll(PROMPT_PATTERNS, Remove(Tag, s));
      && |t| <= |s| && (|t| == |s| ==> t == s)
      && (t == s <==> forall p: Pattern :: NoMatch(p, s))
  {
    EveryPattern(s);
    hide Remove, RemoveAll;
    var t0 := Remove(Tag, s);
    var t1 := Remove(ChatToken, t0);
    var t2 := Remove(RoleMarker, t1);
    var t3 := Remove(InstMarker, t2);
    FourPasses(t0);
    RemoveIsIdentityExactlyWhen(Tag, s);
    RemoveIsIdentityExactlyWhen(ChatToken, t0);
    RemoveIsIdentityExactlyWhen(RoleMarker, t1);
    RemoveIsIdentityExactlyWhen(InstMarker, t2);
    RemoveIsIdentityExactlyWhen(SentenceToken, t3);
  }

  /** Text is returned unchanged exactly when no pattern matches, it is short enough and it is trimmed. */
  lemma UnchangedExactlyWhen(s: string)
    ensures Sanitised(s) == s <==>
      && (forall p: Pattern :: NoMatch(p, s))
      && |s| <= 4000
      && (s == "" || (s[0] !in WHITE_SPACE && s[|s| - 1] !in WHITE_SPACE))
  {
    if s != "" {
      SpaceExactlyWhen(s[0]);
      SpaceExactlyWhen(s[|s| - 1]);
    }
    var t := RemoveAll(PROMPT_PATTERNS, Remove(Tag, s));
    PassesKeepExactlyWhen(s);
    hide RemoveAll, Remove, NoMatch, Strip, IsSpace;
    var i, j := StripIsSlice(Truncate(t));
    assert |Strip(Truncate(t))| == j - i <= |Truncate(t)| <= |t|;
    if t == s && |s| <= MAX_TICKET_LEN && (s == "" || (!IsSpace(s[0]) && !IsSpace(s[|s| - 1]))) {
      StripOfTrimmed(s);
    }
  }
}
