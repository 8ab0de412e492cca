/** The string operations of Python that the services rely on. */
module PyText {
  /** str.isspace() for one character: what `\s` matches and what strip() removes. */
  predicate IsSpace(c: char) {
    '\t' <= c <= '\r' || '\U{1C}' <= c <= ' ' || c == '\U{85}' || c == '\U{A0}' || c == '\U{1680}'
    || '\U{2000}' <= c <= '\U{200A}' || c == '\U{2028}' || c == '\U{2029}' || c == '\U{202F}'
    || c == '\U{205F}' || c == '\U{3000}'
  }

  /** The same characters one by one. */
  const WHITE_SPACE: string :=
    "\t\n\U{B}\U{C}\r\U{1C}\U{1D}\U{1E}\U{1F} \U{85}\U{A0}\U{1680}"
    + "\U{2000}\U{2001}\U{2002}\U{2003}\U{2004}\U{2005}\U{2006}\U{2007}\U{2008}\U{2009}\U{200A}"
    + "\U{2028}\U{2029}\U{202F}\U{205F}\U{3000}"

  predicate Blank(s: string) {
    forall c :: c in s ==> c in WHITE_SPACE
  }

  lemma SpaceExactlyWhen(c: char)
    ensures IsSpace(c) <==> c in WHITE_SPACE
  {
  }

  function StripLeft(s: string): (r: string)
    ensures |r| <= |s| && r == s[|s| - |r|..]
    ensures forall k :: 0 <= k < |s| - |r| ==> IsSpace(s[k])
    ensures r != [] ==> !IsSpace(r[0])
  {
    if s != [] && IsSpace(s[0]) then StripLeft(s[1..]) else s
  }

  function StripRight(s: string): (r: string)
    ensures r <= s
    ensures forall k :: |r| <= k < |s| ==> IsSpace(s[k])
    ensures r != [] ==> !IsSpace(r[|r| - 1])
  {
    if s != [] && IsSpace(s[|s| - 1]) then StripRight(s[..|s| - 1]) else s
  }

  /** str.strip() */
  function Strip(s: string): string {
    StripRight(StripLeft(s))
  }

  /** " ".join(parts) */
  function JoinWithSpaces(parts: seq<string>): string {
    if parts == [] then ""
    else if |parts| == 1 then parts[0]
    else parts[0] + " " + JoinWithSpaces(parts[1..])
  }

  lemma {:induction false} JoinAppend(parts: seq<string>, last: string)
    ensures JoinWithSpaces([]) == ""
    ensures JoinWithSpaces(parts + [last]) == if parts == [] then last else JoinWithSpaces(parts) + " " + last
  {
    if |parts| > 1 {
      JoinAppend(parts[1..], last);
      assert (parts + [last])[1..] == parts[1..] + [last];
    } else if |parts| == 1 {
      assert (parts + [last])[1..] == [last];
    }
  }

  /** strip() returns a slice of its argument with no white space at either end, and drops nothing else. */
  lemma StripIsSlice(s: string) returns (i: nat, j: nat)
    ensures i <= j <= |s| && Strip(s) == s[i..j]
    ensures forall k :: 0 <= k < i || j <= k < |s| ==> IsSpace(s[k])
    ensures Strip(s) != [] ==> !IsSpace(Strip(s)[0]) && !IsSpace(Strip(s)[|Strip(s)| - 1])
  {
    hide StripLeft, StripRight, IsSpace;
    var left := StripLeft(s);
    i := |s| - |left|;
    j := i + |Strip(s)|;
    assert Strip(s) == left[..|Strip(s)|] == s[i..j];
    forall k | j <= k < |s| ensures IsSpace(s[k]) {
      assert s[k] == left[k - i];
    }
  }

  /** `r` is `s` without the white space at its ends. */
  ghost predicate IsTrimOf(r: string, s: string) {
    && (exists i, j :: 0 <= i <= j <= |s| && r == s[i..j] && Blank(s[..i]) && Blank(s[j..]))
    && (r != "" ==> r[0] !in WHITE_SPACE && r[|r| - 1] !in WHITE_SPACE)
  }

  lemma StripTrims(s: string)
    ensures IsTrimOf(Strip(s), s)
  {
    hide Strip, IsSpace;
    var i, j := StripIsSlice(s);
    forall c: char ensures IsSpace(c) <==> c in WHITE_SPACE {
      SpaceExactlyWhen(c);
    }
    assert Blank(s[..i]) && Blank(s[j..]);
  }

  /** Trimmed text is left alone. */
  lemma StripOfTrimmed(s: string)
    requires s == [] || (!IsSpace(s[0]) && !IsSpace(s[|s| - 1]))
    ensures Strip(s) == s
  {
  }
}
