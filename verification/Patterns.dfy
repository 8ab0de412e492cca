/**
 * The compiled patterns of the sanitiser: which texts each one describes, how a match is found
 * from a given place, and what one pass of substitution by nothing makes of a text.
 */
module Patterns {
  import opened PyText
  import opened Wrappers

  /** An HTML tag, and the four prompt markers. */
  datatype Pattern = Tag | ChatToken | RoleMarker | InstMarker | SentenceToken

  // ---------- the texts a pattern describes ----------

  /** The characters that match the letter `c` under re.IGNORECASE. */
  function AnyCase(c: char): set<char> {
    if c == 's' then {'s', 'S', '\U{17F}'}
    else if c == 'i' then {'i', 'I', '\U{130}', '\U{131}'}
    else if 'a' <= c <= 'z' then {c, (c as int - 32) as char}
    else {c}
  }

  predicate SpellsAnyCase(name: string, word: string) {
    |name| == |word| && forall k :: 0 <= k < |word| ==> name[k] in AnyCase(word[k])
  }

  predicate IsRoleName(name: string) {
    || SpellsAnyCase(name, "system") || SpellsAnyCase(name, "assistant")
    || SpellsAnyCase(name, "human") || SpellsAnyCase(name, "user")
  }

  /** Hashes, white space, a name from `j` to `k`, white space, a colon. */
  predicate RoleText(m: string, j: int, k: int) {
    && 3 <= j <= k < |m| && m[..3] == "###" && Blank(m[3..j]) && IsRoleName(m[j..k])
    && Blank(m[k..|m| - 1]) && m[|m| - 1] == ':'
  }

  ghost predicate Contains(s: string, what: string) {
    exists i :: 0 <= i <= |s| && what <= s[i..]
  }

  /** `m` is one match of the pattern, no longer and no shorter. */
  ghost predicate Describes(p: Pattern, m: string) {
    match p
    case Tag => |m| >= 3 && m[0] == '<' && '>' !in m[1..|m| - 1] && m[|m| - 1] == '>'
    case ChatToken =>
      |m| >= 4 && m[..2] == "<|" && !Contains(m[2..|m| - 2], "|>") && m[|m| - 2..] == "|>"
    case RoleMarker => exists j, k :: RoleText(m, j, k)
    case InstMarker => m == "[INST]" || m == "[/INST]"
    case SentenceToken => m == "<s>" || m == "</s>"
  }

  // ---------- how a match is found ----------

  /** The first place from `i` on that starts with `what`, or |s|. */
  function Find(s: string, i: nat, what: string): (j: nat)
    requires i <= |s| && what != ""
    ensures i <= j <= |s|
    ensures j < |s| ==> what <= s[j..]
    ensures forall k :: i <= k < j ==> !(what <= s[k..])
    decreases |s| - i
  {
    if i == |s| || what <= s[i..] then i else Find(s, i + 1, what)
  }

  function SkipSpaces(s: string, i: nat): (j: nat)
    requires i <= |s|
    ensures i <= j <= |s|
    ensures forall k :: i <= k < j ==> IsSpace(s[k])
    ensures j < |s| ==> !IsSpace(s[j])
    decreases |s| - i
  {
    if i < |s| && IsSpace(s[i]) then SkipSpaces(s, i + 1) else i
  }

  /** `c` matches the lower-case letter `d` under re.IGNORECASE. */
  predicate Folds(c: char, d: char) {
    || c == d
    || ('A' <= c <= 'Z' && c as int + 32 == d as int)
    || (d == 's' && c == '\U{17F}')
    || (d == 'i' && (c == '\U{130}' || c == '\U{131}'))
  }

  predicate StartsWithWord(s: string, i: nat, word: string) {
    i + |word| <= |s| && forall k :: 0 <= k < |word| ==> Folds(s[i + k], word[k])
  }

  /** The length of the role name at `i`, 0 if there is none. */
  function RoleLength(s: string, i: nat): (n: nat)
    requires i <= |s|
    ensures i + n <= |s|
    ensures forall k :: i <= k < i + n ==> s[k] != '<' && s[k] != '>'
  {
    if StartsWithWord(s, i, "system") then NoAngles(s, i, "system"); 6
    else if StartsWithWord(s, i, "assistant") then NoAngles(s, i, "assistant"); 9
    else if StartsWithWord(s, i, "human") then NoAngles(s, i, "human"); 5
    else if StartsWithWord(s, i, "user") then NoAngles(s, i, "user"); 4
    else 0
  }

  lemma NoAngles(s: string, i: nat, word: string)
    requires StartsWithWord(s, i, word)
    requires forall c :: c in word ==> 'a' <= c <= 'z'
    ensures forall k :: i <= k < i + |word| ==> s[k] != '<' && s[k] != '>'
  {
    forall k | i <= k < i + |word| ensures s[k] != '<' && s[k] != '>' {
      assert Folds(s[i + (k - i)], word[k - i]) && word[k - i] in word;
    }
  }

  /** The end of a match that starts at `i`. */
  function MatchEnd(p: Pattern, s: string, i: nat): (e: Option<nat>)
    requires i < |s|
    ensures e.Some? ==> i < e.value <= |s|
  {
    match p
    case Tag =>
      // <[^>]+>
      if s[i] != '<' then None
      else
        var j := Find(s, i + 1, ">");
        if i + 2 <= j < |s| then Some(j + 1) else None
    case ChatToken =>
      // <\|.*?\|>
      if !("<|" <= s[i..]) then None
      else
        var j := Find(s, i + 2, "|>");
        if j < |s| then Some(j + 2) else None
    case RoleMarker =>
      // ###\s*(System|Assistant|Human|User)\s*:
      if !("###" <= s[i..]) then None
      else
        var j := SkipSpaces(s, i + 3);
        var n := RoleLength(s, j);
        var k := SkipSpaces(s, j + n);
        if n > 0 && k < |s| && s[k] == ':' then Some(k + 1) else None
    case InstMarker =>
      if "[INST]" <= s[i..] then Some(i + 6)
      else if "[/INST]" <= s[i..] then Some(i + 7)
      else None
    case SentenceToken =>
      if "<s>" <= s[i..] then Some(i + 3)
      else if "</s>" <= s[i..] then Some(i + 4)
      else None
  }

  /** pattern.sub("", s), from place `i` on. */
  function Sub(p: Pattern, s: string, i: nat): string
    requires i <= |s|
    decreases |s| - i
  {
    if i == |s| then ""
    else
      var e := MatchEnd(p, s, i);
      if e.Some? then Sub(p, s, e.value) else [s[i]] + Sub(p, s, i + 1)
  }

  function Remove(p: Pattern, s: string): string {
    Sub(p, s, 0)
  }

  // ---------- the two agree ----------

  lemma CharsOfPrefix(s: string, i: nat, what: string)
    requires i <= |s| && what <= s[i..]
    ensures i + |what| <= |s| && s[i..i + |what|] == what
    ensures forall k :: i <= k < i + |what| ==> s[k] == what[k - i]
  {
    forall k | i <= k < i + |what| ensures s[k] == what[k - i] {
      assert s[k] == s[i..][k - i];
    }
  }

  lemma SliceOfSlice(s: string, i: nat, e: nat, j: nat, k: nat)
    requires i <= e <= |s| && j <= k <= e - i
    ensures s[i..e][j..k] == s[i + j..i + k]
  {
    var m := s[i..e];
    assert |m[j..k]| == |s[i + j..i + k]|;
    forall x | 0 <= x < k - j ensures m[j..k][x] == s[i + j..i + k][x] {
      assert m[j..k][x] == m[j + x] == s[i + (j + x)];
    }
  }

  lemma SliceStarts(s: string, i: nat, k: nat)
    requires i <= k <= |s|
    ensures s[i..k] <= s[i..]
  {
    assert s[i..][..k - i] == s[i..k];
  }

  lemma {:induction false} FindIs(s: string, i: nat, what: string, j: nat)
    requires i <= j < |s| && what != "" && what <= s[j..]
    requires forall k :: i <= k < j ==> !(what <= s[k..])
    ensures Find(s, i, what) == j
    decreases j - i
  {
    if i < j {
      FindIs(s, i + 1, what, j);
    }
  }

  lemma TagDescribed(s: string, i: nat, e: nat)
    requires i < e <= |s|
    ensures MatchEnd(Tag, s, i) == Some(e) <==> Describes(Tag, s[i..e])
  {
    var m := s[i..e];
    if i + 3 <= e {
      SliceOfSlice(s, i, e, 1, |m| - 1);
    }
    if MatchEnd(Tag, s, i) == Some(e) {
      forall k | i + 1 <= k < e - 1 ensures s[k] != '>' {
        assert !(">" <= s[k..]);
      }
      assert ">" <= s[e - 1..];
    }
    if Describes(Tag, m) {
      forall k | i + 1 <= k < e - 1 ensures !(">" <= s[k..]) {
        assert s[k] == m[1..|m| - 1][k - i - 1];
      }
      FindIs(s, i + 1, ">", e - 1);
    }
  }

  /** An end mark that starts inside s[i..e], before a '|', is part of it. */
  lemma EndMarkInside(s: string, i: nat, k: nat, e: nat)
    requires i <= k < e < |s| && s[e] == '|' && "|>" <= s[k..]
    ensures Contains(s[i..e], "|>")
  {
    CharsOfPrefix(s, k, "|>");
    assert s[i..e][k - i..][..2] == s[k..k + 2];
  }

  lemma PrefixInSlice(s: string, i: nat, e: nat, k: nat, what: string)
    requires i <= e <= |s| && k <= e - i && what <= s[i..e][k..]
    ensures what <= s[i + k..]
  {
    assert s[i + k..][..|what|] == s[i..e][k..][..|what|];
  }

  lemma ChatMatched(s: string, i: nat, e: nat)
    requires i < e <= |s| && MatchEnd(ChatToken, s, i) == Some(e)
    ensures Describes(ChatToken, s[i..e])
  {
    CharsOfPrefix(s, i, "<|");
    CharsOfPrefix(s, e - 2, "|>");
    if Contains(s[i + 2..e - 2], "|>") {
      var k :| 0 <= k <= e - i - 4 && "|>" <= s[i + 2..e - 2][k..];
      PrefixInSlice(s, i + 2, e - 2, k, "|>");
    }
    hide MatchEnd, Contains;
    ChatSlices(s, i, e);
  }

  lemma ChatSlices(s: string, i: nat, e: nat)
    requires i + 4 <= e <= |s|
    ensures var m := s[i..e];
      m[..2] == s[i..i + 2] && m[2..|m| - 2] == s[i + 2..e - 2] && m[|m| - 2..] == s[e - 2..e]
  {
    SliceOfSlice(s, i, e, 0, 2);
    SliceOfSlice(s, i, e, 2, e - i - 2);
    SliceOfSlice(s, i, e, e - i - 2, e - i);
  }

  lemma ChatFound(s: string, i: nat, e: nat)
    requires i < e <= |s| && Describes(ChatToken, s[i..e])
    ensures MatchEnd(ChatToken, s, i) == Some(e)
  {
    ChatSlices(s, i, e);
    SliceStarts(s, i, i + 2);
    SliceStarts(s, e - 2, e);
    assert s[e - 2] == s[e - 2..e][0];
    hide MatchEnd, Contains;
    forall k | i + 2 <= k < e - 2 ensures !("|>" <= s[k..]) {
      if "|>" <= s[k..] {
        EndMarkInside(s, i + 2, k, e - 2);
      }
    }
    FindIs(s, i + 2, "|>", e - 2);
    ChatEnd(s, i, e);
  }

  lemma ChatEnd(s: string, i: nat, e: nat)
    requires i + 4 <= e <= |s| && "<|" <= s[i..] && Find(s, i + 2, "|>") == e - 2
    ensures MatchEnd(ChatToken, s, i) == Some(e)
  {
  }

  lemma FoldsIsAnyCase(c: char, d: char)
    requires 'a' <= d <= 'z'
    ensures Folds(c, d) <==> c in AnyCase(d)
  {
  }

  lemma WordIsSpelled(s: string, j: nat, word: string)
    requires forall c :: c in word ==> 'a' <= c <= 'z'
    ensures StartsWithWord(s, j, word) <==> j + |word| <= |s| && SpellsAnyCase(s[j..j + |word|], word)
  {
    if j + |word| <= |s| {
      forall k | 0 <= k < |word| ensures Folds(s[j + k], word[k]) <==> s[j..j + |word|][k] in AnyCase(word[k]) {
        assert word[k] in word;
        FoldsIsAnyCase(s[j + k], word[k]);
      }
    }
  }

  lemma FirstLetters(s: string, i: nat)
    ensures StartsWithWord(s, i, "system") ==> Folds(s[i], 's')
    ensures StartsWithWord(s, i, "assistant") ==> Folds(s[i], 'a')
    ensures StartsWithWord(s, i, "human") ==> Folds(s[i], 'h')
    ensures StartsWithWord(s, i, "user") ==> Folds(s[i], 'u')
  {
    if StartsWithWord(s, i, "system") { assert Folds(s[i + 0], "system"[0]); }
    if StartsWithWord(s, i, "assistant") { assert Folds(s[i + 0], "assistant"[0]); }
    if StartsWithWord(s, i, "human") { assert Folds(s[i + 0], "human"[0]); }
    if StartsWithWord(s, i, "user") { assert Folds(s[i + 0], "user"[0]); }
  }

  lemma RoleLengthIsName(s: string, j: nat, n: nat)
    requires j + n <= |s|
    ensures 0 < n && RoleLength(s, j) == n <==> IsRoleName(s[j..j + n])
  {
    FirstLetters(s, j);
    WordIsSpelled(s, j, "system");
    WordIsSpelled(s, j, "assistant");
    WordIsSpelled(s, j, "human");
    WordIsSpelled(s, j, "user");
    hide StartsWithWord, AnyCase;
  }

  lemma {:induction false} SkipIs(s: string, i: nat, j: nat)
    requires i <= j <= |s| && (forall k :: i <= k < j ==> IsSpace(s[k])) && (j < |s| ==> !IsSpace(s[j]))
    ensures SkipSpaces(s, i) == j
    decreases j - i
  {
    if i < j {
      SkipIs(s, i + 1, j);
    }
  }

  lemma BlankSlice(s: string, i: nat, j: nat)
    requires i <= j <= |s|
    ensures Blank(s[i..j]) <==> forall k :: i <= k < j ==> IsSpace(s[k])
  {
    forall k | i <= k < j ensures IsSpace(s[k]) <==> s[k] in WHITE_SPACE {
      SpaceExactlyWhen(s[k]);
    }
    if Blank(s[i..j]) {
      forall k | i <= k < j ensures IsSpace(s[k]) {
        assert s[k] == s[i..j][k - i];
      }
    }
  }

  lemma RoleNameStart(name: string)
    requires IsRoleName(name)
    ensures name != "" && !IsSpace(name[0])
  {
    assert name[0] in AnyCase('s') + AnyCase('a') + AnyCase('h') + AnyCase('u');
  }

  lemma RoleMatched(s: string, i: nat, e: nat)
    requires i < e <= |s| && MatchEnd(RoleMarker, s, i) == Some(e)
    ensures Describes(RoleMarker, s[i..e])
  {
    hide MatchEnd, IsRoleName, Blank, RoleLength, SkipSpaces, IsSpace, Describes;
    var j, k := RoleParts(s, i, e);
    CharsOfPrefix(s, i, "###");
    RoleLengthIsName(s, j, k - j);
    BlankSlice(s, i + 3, j);
    BlankSlice(s, k, e - 1);
    IsRoleText(s, i, e, j - i, k - i);
  }

  lemma RoleParts(s: string, i: nat, e: nat) returns (j: nat, k: nat)
    requires i < e <= |s| && MatchEnd(RoleMarker, s, i) == Some(e)
    ensures i + 3 <= j < k < e && "###" <= s[i..] && s[e - 1] == ':' && RoleLength(s, j) == k - j
    ensures forall x :: i + 3 <= x < j || k <= x < e - 1 ==> IsSpace(s[x])
  {
    hide RoleLength, IsSpace;
    j := SkipSpaces(s, i + 3);
    k := j + RoleLength(s, j);
  }

  lemma IsRoleText(s: string, i: nat, e: nat, j: nat, k: nat)
    requires i < e <= |s| && 3 <= j <= k < e - i && s[i..i + 3] == "###" && Blank(s[i + 3..i + j])
    requires IsRoleName(s[i + j..i + k]) && Blank(s[i + k..e - 1]) && s[e - 1] == ':'
    ensures Describes(RoleMarker, s[i..e])
  {
    hide IsRoleName, Blank;
    RoleSlices(s, i, e, j, k);
    assert RoleText(s[i..e], j, k);
  }

  lemma RoleSlices(s: string, i: nat, e: nat, j: nat, k: nat)
    requires i < e <= |s| && 3 <= j <= k < e - i
    ensures s[i..e][..3] == s[i..i + 3] && s[i..e][3..j] == s[i + 3..i + j] && s[i..e][j..k] == s[i + j..i + k]
    ensures s[i..e][k..|s[i..e]| - 1] == s[i + k..e - 1]
  {
    SliceOfSlice(s, i, e, 0, 3);
    SliceOfSlice(s, i, e, 3, j);
    SliceOfSlice(s, i, e, j, k);
    SliceOfSlice(s, i, e, k, e - i - 1);
  }

  lemma RoleFound(s: string, i: nat, e: nat)
    requires i < e <= |s| && Describes(RoleMarker, s[i..e])
    ensures MatchEnd(RoleMarker, s, i) == Some(e)
  {
    var j: nat, k: nat :| RoleText(s[i..e], j, k);
    RoleTextFound(s, i, e, j, k);
  }

  lemma RoleTextFound(s: string, i: nat, e: nat, j: nat, k: nat)
    requires i < e <= |s| && RoleText(s[i..e], j, k)
    ensures MatchEnd(RoleMarker, s, i) == Some(e)
  {
    hide MatchEnd, Describes, IsRoleName, Blank, IsSpace, RoleLength;
    RoleSlices(s, i, e, j, k);
    SliceStarts(s, i, i + 3);
    NameFound(s, i + 3, i + j, i + k, e - 1);
    PartsMatch(s, i, i + j, k - j, e - 1);
  }

  lemma NameFound(s: string, i: nat, j: nat, k: nat, c: nat)
    requires i <= j <= k <= c <= |s| && Blank(s[i..j]) && IsRoleName(s[j..k]) && Blank(s[k..c])
    ensures j < k && RoleLength(s, j) == k - j && !IsSpace(s[j])
    ensures forall x :: i <= x < j || k <= x < c ==> IsSpace(s[x])
  {
    hide IsSpace, Blank, RoleLength, IsRoleName;
    BlankSlice(s, i, j);
    BlankSlice(s, k, c);
    RoleNameStart(s[j..k]);
    RoleLengthIsName(s, j, k - j);
  }

  lemma PartsMatch(s: string, i: nat, j: nat, n: nat, c: nat)
    requires i + 3 <= j && 0 < n && j + n <= c < |s| && "###" <= s[i..] && s[c] == ':'
    requires !IsSpace(s[j]) && forall k :: i + 3 <= k < j || j + n <= k < c ==> IsSpace(s[k])
    requires RoleLength(s, j) == n
    ensures MatchEnd(RoleMarker, s, i) == Some(c + 1)
  {
    hide RoleLength;
    SkipIs(s, i + 3, j);
    SkipIs(s, j + n, c);
  }

  lemma LiteralDescribed(p: Pattern, s: string, i: nat, e: nat)
    requires (p == InstMarker || p == SentenceToken) && i < e <= |s|
    ensures MatchEnd(p, s, i) == Some(e) <==> Describes(p, s[i..e])
  {
    if MatchEnd(p, s, i) == Some(e) {
      assert s[i..][..e - i] == s[i..e];
    }
    if Describes(p, s[i..e]) {
      assert s[i..][..e - i] == s[i..e];
      if p == InstMarker && "[INST]" <= s[i..] {
        assert s[i..e][1] == s[i..][1] == 'I';
      } else if p == SentenceToken && "<s>" <= s[i..] {
        assert s[i..e][1] == s[i..][1] == 's';
      }
    }
  }

  /** From `i` on, exactly the described text that starts there is matched. */
  lemma MatchedExactlyWhen(p: Pattern, s: string, i: nat, e: nat)
    requires i < e <= |s|
    ensures MatchEnd(p, s, i) == Some(e) <==> Describes(p, s[i..e])
  {
    match p
    case Tag => TagDescribed(s, i, e);
    case ChatToken =>
      if MatchEnd(p, s, i) == Some(e) { ChatMatched(s, i, e); }
      if Describes(p, s[i..e]) { ChatFound(s, i, e); }
    case RoleMarker =>
      if MatchEnd(p, s, i) == Some(e) { RoleMatched(s, i, e); }
      if Describes(p, s[i..e]) { RoleFound(s, i, e); }
    case _ => LiteralDescribed(p, s, i, e);
  }

  // ---------- what a pass does ----------

  /** The pattern describes no part of the text that starts before `n`. */
  ghost predicate NoMatchBefore(p: Pattern, s: string, n: nat) {
    forall i, e :: 0 <= i < n && i < e <= |s| ==> !Describes(p, s[i..e])
  }

  ghost predicate NoMatch(p: Pattern, s: string) {
    NoMatchBefore(p, s, |s|)
  }

  lemma NoMatchIsNoEnd(p: Pattern, s: string, n: nat)
    requires n <= |s|
    ensures NoMatchBefore(p, s, n) <==> forall i :: 0 <= i < n ==> MatchEnd(p, s, i).None?
  {
    hide MatchEnd, Describes;
    forall i, e | 0 <= i < n && i < e <= |s| ensures MatchEnd(p, s, i) == Some(e) <==> Describes(p, s[i..e]) {
      MatchedExactlyWhen(p, s, i, e);
    }
    if i :| 0 <= i < n && MatchEnd(p, s, i).Some? {
      assert Describes(p, s[i..MatchEnd(p, s, i).value]);
    }
  }

  lemma {:induction false} KeptUntil(p: Pattern, s: string, i: nat, n: nat)
    requires i <= n <= |s| && forall k :: i <= k < n ==> MatchEnd(p, s, k).None?
    ensures Sub(p, s, i) == s[i..n] + Sub(p, s, n)
    decreases n - i
  {
    hide MatchEnd;
    if i < n {
      KeptUntil(p, s, i + 1, n);
      var rest := Sub(p, s, n);
      assert [s[i]] + (s[i + 1..n] + rest) == s[i..n] + rest;
    } else {
      assert s[i..n] == "";
    }
  }

  lemma DescribedIsNotEmpty(p: Pattern, m: string)
    requires Describes(p, m)
    ensures m != ""
  {
  }

  /** The same characters match in the same way wherever they stand. */
  lemma MatchSame(p: Pattern, a: string, i: nat, b: string, k: nat, n: nat)
    requires 0 < n && i + n <= |a| && k + n <= |b| && a[i..i + n] == b[k..k + n]
    requires MatchEnd(p, a, i) == Some(i + n)
    ensures MatchEnd(p, b, k) == Some(k + n)
  {
    hide MatchEnd, Describes;
    MatchedExactlyWhen(p, a, i, i + n);
    MatchedExactlyWhen(p, b, k, k + n);
  }

  lemma MatchShifts(p: Pattern, a: string, s: string, i: nat)
    requires i < |s|
    ensures MatchEnd(p, a + s, |a| + i).Some? <==> MatchEnd(p, s, i).Some?
    ensures MatchEnd(p, s, i).Some? ==> MatchEnd(p, a + s, |a| + i) == Some(|a| + MatchEnd(p, s, i).value)
  {
    hide MatchEnd;
    if MatchEnd(p, s, i).Some? {
      MatchSame(p, s, i, a + s, |a| + i, MatchEnd(p, s, i).value - i);
    }
    if MatchEnd(p, a + s, |a| + i).Some? {
      MatchSame(p, a + s, |a| + i, s, i, MatchEnd(p, a + s, |a| + i).value - |a| - i);
    }
  }

  lemma {:induction false} SubShifts(p: Pattern, a: string, s: string, i: nat)
    requires i <= |s|
    ensures Sub(p, a + s, |a| + i) == Sub(p, s, i)
    decreases |s| - i
  {
    hide MatchEnd;
    if i < |s| {
      MatchShifts(p, a, s, i);
      SubShifts(p, a, s, if MatchEnd(p, s, i).Some? then MatchEnd(p, s, i).value else i + 1);
    }
  }

  /** The leftmost match goes, what is before it stays, and the pass goes on behind it. */
  lemma LeftmostIsRemoved(p: Pattern, s: string, i: nat, e: nat)
    requires i < e <= |s| && NoMatchBefore(p, s, i) && Describes(p, s[i..e])
    ensures Remove(p, s) == s[..i] + Remove(p, s[e..])
  {
    hide MatchEnd, Describes;
    NoMatchIsNoEnd(p, s, i);
    MatchedExactlyWhen(p, s, i, e);
    KeptUntil(p, s, 0, i);
    SubShifts(p, s[..e], s[e..], 0);
    assert s[..e] + s[e..] == s;
  }

  /** And a text is left as it is exactly when the pattern describes no part of it. */
  lemma RemoveIsIdentityExactlyWhen(p: Pattern, s: string)
    ensures Remove(p, s) == s <==> NoMatch(p, s)
    ensures |Remove(p, s)| <= |s|
    ensures |Remove(p, s)| == |s| ==> Remove(p, s) == s
  {
    hide MatchEnd, Describes;
    NoMatchIsNoEnd(p, s, |s|);
    SubLength(p, s, 0);
    assert s[0..] == s;
    if NoMatch(p, s) {
      KeptUntil(p, s, 0, |s|);
    }
  }

  /** A pass never lengthens the text, and keeps its length only where nothing matches. */
  lemma {:induction false} SubLength(p: Pattern, s: string, i: nat)
    requires i <= |s|
    ensures |Sub(p, s, i)| <= |s| - i
    ensures |Sub(p, s, i)| == |s| - i ==> forall k :: i <= k < |s| ==> MatchEnd(p, s, k).None?
    decreases |s| - i
  {
    hide MatchEnd;
    if i < |s| {
      var e := MatchEnd(p, s, i);
      SubLength(p, s, if e.Some? then e.value else i + 1);
    }
  }

  // ---------- the tag pass ----------

  lemma TagChars(m: string)
    requires Describes(Tag, m)
    ensures |m| >= 3 && m[0] == '<' && m[|m| - 1] == '>'
  {
  }

  lemma NoTagStarts(s: string, n: nat)
    requires n <= |s| && '<' !in s[..n]
    ensures NoMatchBefore(Tag, s, n)
  {
    forall i, e | 0 <= i < n && i < e <= |s| ensures !Describes(Tag, s[i..e]) {
      assert s[..n][i] == s[i] == s[i..e][0];
      if Describes(Tag, s[i..e]) {
        TagChars(s[i..e]);
      }
    }
  }

  /** The first tag of a text goes, what is before it stays, and the pass goes on behind it. */
  lemma TagIsRemoved(u: string, w: string, v: string)
    requires '<' !in u && w != "" && '>' !in w
    ensures Remove(Tag, u + "<" + w + ">" + v) == u + Remove(Tag, v)
  {
    var s := u + "<" + w + ">" + v;
    var e := |u| + |w| + 2;
    var m := s[|u|..e];
    assert s[..|u|] == u && s[e..] == v;
    assert m[1..|m| - 1] == w && m[0] == '<' && m[|m| - 1] == '>';
    NoTagStarts(s, |u|);
    LeftmostIsRemoved(Tag, s, |u|, e);
  }

  lemma PlainStartStays(u: string, v: string)
    requires '<' !in u
    ensures Remove(Tag, u + v) == u + Remove(Tag, v)
  {
    var n := |u|;
    assert (u + v)[..n] == u;
    NoTagStarts(u + v, n);
    NoMatchIsNoEnd(Tag, u + v, n);
    KeptUntil(Tag, u + v, 0, n);
    SubShifts(Tag, u, v, 0);
  }

  /** Brackets with nothing in between are no tag. */
  lemma EmptyBracketsStay(u: string, v: string)
    requires '<' !in u
    ensures Remove(Tag, u + "<>" + v) == u + "<>" + Remove(Tag, v)
  {
    var s := u + "<>" + v;
    var n := |u| + 2;
    assert s[..|u|] == u && s[..n] == u + "<>" && s[n..] == v && s == s[..n] + s[n..];
    NoTagStarts(s, |u|);
    NoMatchIsNoEnd(Tag, s, |u|);
    assert ">" <= s[|u| + 1..];
    assert forall k :: 0 <= k < n ==> MatchEnd(Tag, s, k).None?;
    hide MatchEnd;
    KeptUntil(Tag, s, 0, n);
    SubShifts(Tag, s[..n], v, 0);
  }

  /** Text before the first opening bracket and text behind the last closing one are kept. */
  lemma UnclosedTextStays(u: string, v: string)
    requires '<' !in u && '>' !in v
    ensures Remove(Tag, u + v) == u + v
  {
    var s := u + v;
    forall i, e | 0 <= i < |s| && i < e <= |s| ensures !Describes(Tag, s[i..e]) {
      if Describes(Tag, s[i..e]) {
        TagChars(s[i..e]);
      }
    }
    RemoveIsIdentityExactlyWhen(Tag, s);
  }
}
