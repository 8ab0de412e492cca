/**
 * Role and instruction markers: each is removed in one pass, and what one pass leaves behind
 * is exactly what can be read across the markers it removes.
 */
module PromptMarkers {
  import opened Patterns
  import opened PyText
  import opened Sanitiser
  import opened Wrappers

  // ---------- markers as words ----------

  lemma MatchIsWord(p: Pattern, t: string, j: nat) returns (w: string)
    requires j < |t| && MatchEnd(p, t, j).Some?
    ensures Describes(p, w) && w <= t[j..]
  {
    hide MatchEnd, Describes;
    var e := MatchEnd(p, t, j).value;
    w := t[j..e];
    MatchedExactlyWhen(p, t, j, e);
    assert t[j..][..e - j] == w;
  }

  lemma WordMatches(p: Pattern, w: string, t: string, j: nat)
    requires Describes(p, w) && j <= |t| && w <= t[j..]
    ensures j < |t| && MatchEnd(p, t, j) == Some(j + |w|)
  {
    DescribedIsNotEmpty(p, w);
    hide MatchEnd, Describes;
    assert t[j..j + |w|] == t[j..][..|w|] == w;
    MatchedExactlyWhen(p, t, j, j + |w|);
  }

  // ---------- reading across removed markers ----------

  /** `w` can be read from `i` on when complete markers are skipped. */
  predicate Spelled(p: Pattern, s: string, i: nat, w: string)
    requires i <= |s|
    decreases |s| - i
  {
    if w == "" then true
    else if i == |s| then false
    else
      var e := MatchEnd(p, s, i);
      if e.Some? then Spelled(p, s, e.value, w) else s[i] == w[0] && Spelled(p, s, i + 1, w[1..])
  }

  /** A `q` marker can be read in `s`, from a place where no `p` marker starts, across `p` markers. */
  ghost predicate Readable(p: Pattern, q: Pattern, s: string) {
    exists i, w :: 0 <= i < |s| && MatchEnd(p, s, i).None? && Describes(q, w) && Spelled(p, s, i, w)
  }

  /** How many characters before `i` the pass keeps. */
  function KeptBefore(p: Pattern, s: string, i: nat): int
    requires i <= |s|
  {
    |Sub(p, s, 0)| - |Sub(p, s, i)|
  }

  /** And in what the pass keeps it ends by place `n`. */
  ghost predicate ReadableBy(p: Pattern, q: Pattern, s: string, n: nat) {
    exists i, w :: 0 <= i < |s| && MatchEnd(p, s, i).None? && Describes(q, w) && Spelled(p, s, i, w)
                   && KeptBefore(p, s, i) + |w| <= n
  }

  lemma {:induction false} SpelledIsPrefix(p: Pattern, s: string, i: nat, w: string)
    requires i <= |s|
    ensures Spelled(p, s, i, w) <==> w <= Sub(p, s, i)
    decreases |s| - i
  {
    hide MatchEnd;
    if i < |s| && w != "" {
      var e := MatchEnd(p, s, i);
      if e.Some? {
        SpelledIsPrefix(p, s, e.value, w);
      } else {
        SpelledIsPrefix(p, s, i + 1, w[1..]);
        PrefixOfCons(w, s[i], Sub(p, s, i + 1));
      }
    }
  }

  lemma PrefixOfCons(w: string, c: char, rest: string)
    requires w != ""
    ensures w <= [c] + rest <==> w[0] == c && w[1..] <= rest
  {
    if w[0] == c && w[1..] <= rest {
      assert w == [c] + w[1..];
    }
    if w <= [c] + rest {
      assert ([c] + rest)[..|w|][1..] == rest[..|w| - 1];
    }
  }

  /** Each place of the result comes from a place of the text where no marker starts. */
  lemma {:induction false} PlaceOf(p: Pattern, s: string, k: nat, j: nat) returns (i: nat)
    requires k <= |s| && j < |Sub(p, s, k)|
    ensures k <= i < |s| && MatchEnd(p, s, i).None? && Sub(p, s, i) == Sub(p, s, k)[j..]
    decreases |s| - k
  {
    hide MatchEnd;
    var e := MatchEnd(p, s, k);
    if e.Some? {
      i := PlaceOf(p, s, e.value, j);
    } else if j == 0 {
      i := k;
    } else {
      i := PlaceOf(p, s, k + 1, j - 1);
    }
  }

  /** And a place inside no marker is kept. */
  lemma {:induction false} KeptAt(p: Pattern, s: string, k: nat, i: nat) returns (j: nat)
    requires k <= i < |s|
    requires forall m :: k <= m < i && MatchEnd(p, s, m).Some? ==> MatchEnd(p, s, m).value <= i
    ensures j <= |Sub(p, s, k)| && Sub(p, s, k)[j..] == Sub(p, s, i)
    decreases i - k
  {
    hide MatchEnd;
    if k == i {
      j := 0;
    } else if MatchEnd(p, s, k).Some? {
      j := KeptAt(p, s, MatchEnd(p, s, k).value, i);
    } else {
      j := KeptAt(p, s, k + 1, i);
      j := j + 1;
    }
  }

  // ---------- no marker starts inside another ----------

  lemma WordStart(q: Pattern, w: string)
    requires AngleFree(q) && Describes(q, w)
    ensures if q == InstMarker then w != "" && w[0] == '[' else |w| > 3 && w[0] == w[1] == w[2] == '#'
  {
    if q == RoleMarker {
      assert w[..3][0] == w[..3][1] == w[..3][2] == '#';
    }
  }

  lemma InsideInst(s: string, m: nat, i: nat)
    requires m < i < |s| && MatchEnd(InstMarker, s, m).Some? && i < MatchEnd(InstMarker, s, m).value
    ensures s[i] != '[' && s[i] != '#'
  {
    CharsOfPrefix(s, m, if "[INST]" <= s[m..] then "[INST]" else "[/INST]");
  }

  lemma RoleLetters(s: string, i: nat, word: string)
    requires StartsWithWord(s, i, word) && forall c :: c in word ==> 'a' <= c <= 'z'
    ensures forall k :: i <= k < i + |word| ==> s[k] != '#' && s[k] != '['
  {
    forall k | i <= k < i + |word| ensures s[k] != '#' && s[k] != '[' {
      assert Folds(s[i + (k - i)], word[k - i]) && word[k - i] in word;
    }
  }

  lemma InsideRole(s: string, m: nat, i: nat)
    requires m < i < |s| && MatchEnd(RoleMarker, s, m).Some? && i < MatchEnd(RoleMarker, s, m).value
    ensures s[i] != '['
    ensures i > m + 2 ==> s[i] != '#'
    ensures m + 3 < MatchEnd(RoleMarker, s, m).value
  {
    var j := SkipSpaces(s, m + 3);
    CharsOfPrefix(s, m, "###");
    if StartsWithWord(s, j, "system") { RoleLetters(s, j, "system"); }
    else if StartsWithWord(s, j, "assistant") { RoleLetters(s, j, "assistant"); }
    else if StartsWithWord(s, j, "human") { RoleLetters(s, j, "human"); }
    else if StartsWithWord(s, j, "user") { RoleLetters(s, j, "user"); }
  }

  /** Nothing is read from inside a marker. */
  lemma NothingInside(p: Pattern, q: Pattern, s: string, m: nat, i: nat, w: string)
    requires AngleFree(p) && AngleFree(q) && Describes(q, w)
    requires m < i < |s| && MatchEnd(p, s, m).Some? && i < MatchEnd(p, s, m).value
    requires MatchEnd(p, s, i).None?
    ensures !Spelled(p, s, i, w)
  {
    WordStart(q, w);
    ReadOne(p, s, i, w);
    if p == InstMarker {
      InsideInst(s, m, i);
    } else {
      InsideRole(s, m, i);
      InsideRole(s, m, m + 3);
      hide MatchEnd, Spelled;
      if i <= m + 2 && q == RoleMarker {
        HashesInside(s, m, i, w);
      }
    }
  }

  lemma ReadOne(p: Pattern, s: string, i: nat, w: string)
    requires i < |s| && w != "" && MatchEnd(p, s, i).None?
    ensures Spelled(p, s, i, w) ==> s[i] == w[0] && Spelled(p, s, i + 1, w[1..])
  {
  }

  /** The two hashes that can be read inside a role marker are followed by no third. */
  lemma HashesInside(s: string, m: nat, i: nat, w: string)
    requires m + 3 < |s| && m < i <= m + 2 && s[m + 3] != '#'
    requires MatchEnd(RoleMarker, s, i).None? && |w| > 3 && w[0] == w[1] == w[2] == '#'
    ensures !Spelled(RoleMarker, s, i, w)
  {
    NoHashAt(s, m + 3);
    NoMarkerBefore(s, m + 2);
    hide MatchEnd, Spelled;
    ReadOne(RoleMarker, s, i, w);
    if i == m + 1 {
      ReadOne(RoleMarker, s, m + 2, w[1..]);
      ReadOne(RoleMarker, s, m + 3, w[1..][1..]);
    } else {
      ReadOne(RoleMarker, s, m + 3, w[1..]);
    }
  }

  lemma NoHashAt(s: string, i: nat)
    requires i < |s| && s[i] != '#'
    ensures MatchEnd(RoleMarker, s, i).None?
  {
    if "###" <= s[i..] {
      CharsOfPrefix(s, i, "###");
    }
  }

  lemma NoMarkerBefore(s: string, i: nat)
    requires i + 1 < |s| && s[i + 1] != '#'
    ensures MatchEnd(RoleMarker, s, i).None?
  {
    if "###" <= s[i..] {
      CharsOfPrefix(s, i, "###");
    }
  }

  // ---------- what a pass leaves ----------

  /** A place from which a marker can be read is kept. */
  lemma ReadFromKept(p: Pattern, q: Pattern, s: string, i: nat, w: string) returns (j: nat)
    requires AngleFree(p) && AngleFree(q)
    requires i < |s| && MatchEnd(p, s, i).None? && Describes(q, w) && Spelled(p, s, i, w)
    ensures j == KeptBefore(p, s, i) && j + |w| <= |Remove(p, s)| && w <= Remove(p, s)[j..]
  {
    forall m | 0 <= m < i && MatchEnd(p, s, m).Some? ensures MatchEnd(p, s, m).value <= i {
      if i < MatchEnd(p, s, m).value {
        NothingInside(p, q, s, m, i, w);
      }
    }
    hide MatchEnd;
    j := KeptAt(p, s, 0, i);
    SpelledIsPrefix(p, s, i, w);
  }

  function FirstOf(t: string, n: nat): string {
    if n < |t| then t[..n] else t
  }

  lemma WordInFirst(t: string, n: nat, j: nat, w: string)
    requires j <= |t| && w != ""
    ensures j <= |FirstOf(t, n)| && w <= FirstOf(t, n)[j..] <==> j + |w| <= n && w <= t[j..]
  {
    if j + |w| <= n && j + |w| <= |t| {
      assert FirstOf(t, n)[j..][..|w|] == t[j..][..|w|];
    }
  }

  lemma FoundIsReadable(p: Pattern, q: Pattern, s: string, n: nat, j: nat)
    requires AngleFree(p) && AngleFree(q)
    requires j < |FirstOf(Remove(p, s), n)| && MatchEnd(q, FirstOf(Remove(p, s), n), j).Some?
    ensures ReadableBy(p, q, s, n)
  {
    hide MatchEnd;
    var w := MatchIsWord(q, FirstOf(Remove(p, s), n), j);
    WordInFirst(Remove(p, s), n, j, w);
    hide FirstOf;
    var i := PlaceOf(p, s, 0, j);
    SpelledIsPrefix(p, s, i, w);
  }

  lemma ReadableIsFound(p: Pattern, q: Pattern, s: string, n: nat, i: nat, w: string)
    requires AngleFree(p) && AngleFree(q)
    requires i < |s| && MatchEnd(p, s, i).None? && Describes(q, w) && Spelled(p, s, i, w)
    requires KeptBefore(p, s, i) + |w| <= n
    ensures !NoMatch(q, FirstOf(Remove(p, s), n))
  {
    DescribedIsNotEmpty(q, w);
    hide MatchEnd, Spelled, KeptBefore, Describes, Remove, FirstOf;
    var j := ReadFromKept(p, q, s, i, w);
    WordInFirst(Remove(p, s), n, j, w);
    WordMatches(q, w, FirstOf(Remove(p, s), n), j);
    NoMatchIsNoEnd(q, FirstOf(Remove(p, s), n), |FirstOf(Remove(p, s), n)|);
  }

  /**
   * After the pass that removes `p` markers, the first `n` characters hold a `q` marker exactly
   * when one could be read in the text across complete `p` markers that ends in time.
   */
  lemma LeftInCutExactlyWhen(p: Pattern, q: Pattern, s: string, n: nat)
    requires AngleFree(p) && AngleFree(q)
    ensures NoMatch(q, FirstOf(Remove(p, s), n)) <==> !ReadableBy(p, q, s, n)
  {
    hide MatchEnd, FirstOf, Remove, Spelled, KeptBefore, Describes;
    var cut := FirstOf(Remove(p, s), n);
    NoMatchIsNoEnd(q, cut, |cut|);
    if !NoMatch(q, cut) {
      var j :| 0 <= j < |cut| && MatchEnd(q, cut, j).Some?;
      FoundIsReadable(p, q, s, n, j);
    }
    if ReadableBy(p, q, s, n) {
      var i, w :| 0 <= i < |s| && MatchEnd(p, s, i).None? && Describes(q, w) && Spelled(p, s, i, w)
                  && KeptBefore(p, s, i) + |w| <= n;
      ReadableIsFound(p, q, s, n, i, w);
    }
  }

  /** Of the whole result: a `q` marker is left exactly when one could be read across `p` markers. */
  lemma LeftExactlyWhenReadable(p: Pattern, q: Pattern, s: string)
    requires AngleFree(p) && AngleFree(q)
    ensures NoMatch(q, Remove(p, s)) <==> !Readable(p, q, s)
  {
    var n := |Remove(p, s)|;
    LeftInCutExactlyWhen(p, q, s, n);
    if Readable(p, q, s) {
      var i, w :| 0 <= i < |s| && MatchEnd(p, s, i).None? && Describes(q, w) && Spelled(p, s, i, w);
      var j := ReadFromKept(p, q, s, i, w);
      assert ReadableBy(p, q, s, n);
    }
  }

  // ---------- the sanitised text ----------

  /** What the role pass works on, and what the instruction pass works on. */
  function AfterTags(text: string): string {
    Remove(Tag, text)
  }

  function AfterRoles(text: string): string {
    Remove(RoleMarker, AfterTags(text))
  }

  lemma SliceHasNoMatch(p: Pattern, s: string, i: nat, j: nat)
    requires NoMatch(p, s) && i <= j <= |s|
    ensures NoMatch(p, s[i..j])
  {
    hide Describes;
    forall a, b | 0 <= a < b <= j - i ensures !Describes(p, s[i..j][a..b]) {
      SliceOfSlice(s, i, j, a, b);
      assert !Describes(p, s[i + a..i + b]);
    }
  }

  /** A marker begins and ends with a character that is no white space. */
  lemma MarkerEnds(p: Pattern, s: string, i: nat)
    requires AngleFree(p) && i < |s| && MatchEnd(p, s, i).Some?
    ensures !IsSpace(s[i]) && !IsSpace(s[MatchEnd(p, s, i).value - 1])
  {
    if p == InstMarker {
      CharsOfPrefix(s, i, if "[INST]" <= s[i..] then "[INST]" else "[/INST]");
    } else {
      CharsOfPrefix(s, i, "###");
    }
  }

  lemma MatchInSlice(p: Pattern, s: string, i: nat, j: nat, k: nat)
    requires AngleFree(p) && i <= j <= |s| && k < |s| && MatchEnd(p, s, k).Some?
    requires forall x :: 0 <= x < i || j <= x < |s| ==> IsSpace(s[x])
    ensures !NoMatch(p, s[i..j])
  {
    MarkerEnds(p, s, k);
    hide MatchEnd, IsSpace;
    var e := MatchEnd(p, s, k).value;
    assert i <= k && e <= j;
    SliceOfSlice(s, i, j, k - i, e - i);
    MatchSame(p, s, k, s[i..j], k - i, e - k);
    NoMatchIsNoEnd(p, s[i..j], j - i);
  }

  /** Trimming neither makes nor breaks a marker. */
  lemma StripKeepsMarkers(p: Pattern, s: string)
    requires AngleFree(p)
    ensures NoMatch(p, Strip(s)) <==> NoMatch(p, s)
  {
    var i, j := StripIsSlice(s);
    hide MatchEnd, Strip, IsSpace, Describes;
    NoMatchIsNoEnd(p, s, |s|);
    if NoMatch(p, s) {
      SliceHasNoMatch(p, s, i, j);
    } else {
      var k :| 0 <= k < |s| && MatchEnd(p, s, k).Some?;
      MatchInSlice(p, s, i, j, k);
    }
  }

  ghost predicate MarkerFree(s: string) {
    NoMatch(RoleMarker, s) && NoMatch(InstMarker, s)
  }

  lemma OutputMarkers(text: string)
    ensures (forall p: Pattern :: NoMatch(p, Sanitised(text))) <==> MarkerFree(Sanitised(text))
  {
    OutputIsTagFree(text);
    TagFreeExactlyWhenNoMatch(Sanitised(text));
    AngleMarkersGone(Sanitised(text));
    hide Sanitised, MatchEnd;
    EveryPattern(Sanitised(text));
  }

  /**
   * In the text that the role pass leaves, no role or instruction marker can be read across
   * instruction markers so that it ends before the cut.
   */
  ghost predicate NothingNested(text: string) {
    && !ReadableBy(InstMarker, RoleMarker, AfterRoles(text), 4000)
    && !ReadableBy(InstMarker, InstMarker, AfterRoles(text), 4000)
  }

  /** The promise that prompt markers are removed, for every text, whether it is cut or not. */
  lemma OutputIsMarkerFreeExactlyWhen(text: string)
    ensures (forall p: Pattern :: NoMatch(p, Sanitised(text))) <==> NothingNested(text)
  {
    var t := Remove(InstMarker, AfterRoles(text));
    OutputMarkers(text);
    OutputIsTagFree(text);
    hide Sanitised, Remove, Strip, ReadableBy, NoMatch;
    StripKeepsMarkers(RoleMarker, Truncate(t));
    StripKeepsMarkers(InstMarker, Truncate(t));
    LeftInCutExactlyWhen(InstMarker, RoleMarker, AfterRoles(text), 4000);
    LeftInCutExactlyWhen(InstMarker, InstMarker, AfterRoles(text), 4000);
  }

  // ---------- a text that keeps a marker ----------

  /** Without tags and hashes only the instruction pass, the cut and the trim have something to do. */
  lemma SanitisedOf(text: string, left: string)
    requires '<' !in text && '#' !in text && Remove(InstMarker, text) == left && |left| <= 4000
    requires left == "" || (!IsSpace(left[0]) && !IsSpace(left[|left| - 1]))
    ensures Sanitised(text) == left
  {
    NoTagIn(text);
    NoRoleIn(text);
    StripOfTrimmed(left);
    OutputIsTagFree(text);
    hide Sanitised, Remove, Strip, IsSpace;
  }

  lemma NoTagIn(s: string)
    requires '<' !in s
    ensures Remove(Tag, s) == s
  {
    assert s + "" == s;
    UnclosedTextStays(s, "");
  }

  lemma NoRoleIn(s: string)
    requires '#' !in s
    ensures Remove(RoleMarker, s) == s
  {
    forall k | 0 <= k < |s| ensures MatchEnd(RoleMarker, s, k).None? {
      NoHashAt(s, k);
    }
    NoMatchIsNoEnd(RoleMarker, s, |s|);
    RemoveIsIdentityExactlyWhen(RoleMarker, s);
  }

  lemma NoInstAt(s: string, i: nat)
    requires i < |s| && (s[i] != '[' || (i + 3 < |s| && s[i + 1] != '/' && s[i + 3] != 'S'))
    ensures MatchEnd(InstMarker, s, i).None?
  {
    if "[INST]" <= s[i..] {
      CharsOfPrefix(s, i, "[INST]");
    } else if "[/INST]" <= s[i..] {
      CharsOfPrefix(s, i, "[/INST]");
    }
  }

  lemma EndKept()
    ensures Remove(InstMarker, "ST]") == "ST]"
  {
    NoInstAt("ST]", 0);
    NoInstAt("ST]", 1);
    NoInstAt("ST]", 2);
    NoMatchIsNoEnd(InstMarker, "ST]", 3);
    RemoveIsIdentityExactlyWhen(InstMarker, "ST]");
  }

  /** A marker with another one inside: the inner one goes and the outer one is left. */
  lemma InnerRemoved(s: string)
    requires |s| == 12 && s[..3] == "[IN" && s[3..9] == "[INST]" && s[9..] == "ST]"
    ensures Remove(InstMarker, s) == "[INST]"
  {
    assert s[0] == s[..3][0] && s[1] == s[..3][1] && s[2] == s[..3][2] && s[3] == s[3..9][0];
    NoInstAt(s, 0);
    NoInstAt(s, 1);
    NoInstAt(s, 2);
    NoMatchIsNoEnd(InstMarker, s, 3);
    LeftmostIsRemoved(InstMarker, s, 3, 9);
    EndKept();
  }

  const NESTED: string := "[IN[INST]ST]"

  lemma NestedShape()
    ensures |NESTED| == 12 && NESTED[..3] == "[IN" && NESTED[3..9] == "[INST]" && NESTED[9..] == "ST]"
  {
  }

  lemma NestedChars()
    ensures '<' !in NESTED && '#' !in NESTED
  {
  }

  /** So an instruction marker survives with another one inside. */
  lemma NestedMarkerSurvives()
    ensures Sanitised(NESTED) == "[INST]" && !NoMatch(InstMarker, "[INST]")
  {
    hide Sanitised, Remove, MatchEnd, IsSpace, NESTED;
    WholeMarker();
    NestedShape();
    NestedChars();
    InnerRemoved(NESTED);
    NoSpaces();
    SanitisedOf(NESTED, "[INST]");
  }

  lemma NoSpaces()
    ensures !IsSpace('[') && !IsSpace(']')
  {
  }

  lemma WholeMarker()
    ensures !NoMatch(InstMarker, "[INST]")
  {
    assert "[INST]"[0..6] == "[INST]";
  }
}
