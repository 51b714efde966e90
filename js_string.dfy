/** The part of JavaScript's String.prototype.trim that the key store relies on:
    strip every leading and trailing white-space or line-terminator character. */
module JsString {

  /** ECMAScript's WhiteSpace and LineTerminator code points: TAB, VT, FF, SPACE,
      NO-BREAK SPACE, ZERO WIDTH NO-BREAK SPACE, the other space separators (Zs),
      LF, CR, LINE SEPARATOR and PARAGRAPH SEPARATOR. */
  predicate IsWhitespace(c: char) {
    c == '\t' || c == '\U{B}' || c == '\U{C}' || c == ' ' || c == '\U{A0}' || c == '\U{FEFF}'
    || c == '\U{1680}' || ('\U{2000}' <= c <= '\U{200A}') || c == '\U{202F}' || c == '\U{205F}'
    || c == '\U{3000}'
    || c == '\n' || c == '\r' || c == '\U{2028}' || c == '\U{2029}'
  }

  /** Every character of `s` is white space (so `s` trims to nothing). */
  predicate Blank(s: string) {
    forall k :: 0 <= k < |s| ==> IsWhitespace(s[k])
  }

  /** `s` is empty or starts and ends with a character that is not white space. */
  predicate Trimmed(s: string) {
    s == [] || (!IsWhitespace(s[0]) && !IsWhitespace(s[|s| - 1]))
  }

  /** Drops the leading white space. */
  function TrimStart(s: string): (r: string)
    ensures |r| <= |s| && r == s[|s| - |r|..]
    ensures Blank(s[..|s| - |r|])
    ensures r == [] || !IsWhitespace(r[0])
  {
    if s != [] && IsWhitespace(s[0]) then TrimStart(s[1..]) else s
  }

  /** Drops the trailing white space. */
  function TrimEnd(s: string): (r: string)
    ensures |r| <= |s| && r == s[..|r|]
    ensures Blank(s[|r|..])
    ensures r == [] || !IsWhitespace(r[|r| - 1])
  {
    if s != [] && IsWhitespace(s[|s| - 1]) then TrimEnd(s[..|s| - 1]) else s
  }

  /** `s.trim()`: what is left neither starts nor ends with white space. */
  function Trim(s: string): (r: string)
    ensures |r| <= |s| && Trimmed(r)
  {
    TrimEnd(TrimStart(s))
  }

  /** The trimmed string is a slice of the input, everything cut off on either
      side is white space, and it neither starts nor ends with white space. */
  lemma TrimIsSlice(s: string) returns (i: nat, j: nat)
    ensures i <= j <= |s| && Trim(s) == s[i..j]
    ensures Blank(s[..i]) && Blank(s[j..])
    ensures Trimmed(Trim(s))
  {
    var t := TrimStart(s);
    i := |s| - |t|;
    j := i + |TrimEnd(t)|;
    assert t == s[i..];
    assert s[j..] == t[|TrimEnd(t)|..];
    if Trim(s) != [] {
      assert Trim(s)[0] == t[0];
    }
  }

  lemma BlankPrefixAt(s: string, a: nat, k: nat)
    requires k < a <= |s| && Blank(s[..a])
    ensures IsWhitespace(s[k])
  {
    assert s[..a][k] == s[k];
  }

  lemma BlankSuffixAt(s: string, b: nat, k: nat)
    requires b <= k < |s| && Blank(s[b..])
    ensures IsWhitespace(s[k])
  {
    assert s[b..][k - b] == s[k];
  }

  /** A non-blank character at `k` stops the white space cut off on either side. */
  lemma NonBlankInside(s: string, i: nat, j: nat, k: nat)
    requires i <= j <= |s| && Blank(s[..i]) && Blank(s[j..])
    requires k < |s| && !IsWhitespace(s[k])
    ensures i <= k < j
  {
    if k < i { BlankPrefixAt(s, i, k); }
    if j <= k { BlankSuffixAt(s, j, k); }
  }

  /** The first and last characters of a non-empty trimmed slice are not white space. */
  lemma TrimmedEnds(s: string, i: nat, j: nat)
    requires i < j <= |s| && Trimmed(s[i..j])
    ensures !IsWhitespace(s[i]) && !IsWhitespace(s[j - 1])
  {
    assert s[i..j][0] == s[i];
    assert s[i..j][j - i - 1] == s[j - 1];
  }

  /** Two ways of cutting only white space off both ends of `s` that leave slices
      without white space at their ends leave the same slice. */
  lemma SameCut(s: string, i: nat, j: nat, i': nat, j': nat)
    requires i <= j <= |s| && Blank(s[..i]) && Blank(s[j..]) && Trimmed(s[i..j])
    requires i' <= j' <= |s| && Blank(s[..i']) && Blank(s[j'..]) && Trimmed(s[i'..j'])
    ensures s[i..j] == s[i'..j']
  {
    if i' < j' {
      TrimmedEnds(s, i', j');
      NonBlankInside(s, i, j, i');
      NonBlankInside(s, i, j, j' - 1);
      TrimmedEnds(s, i, j);
      NonBlankInside(s, i', j', i);
      NonBlankInside(s, i', j', j - 1);
    } else if i < j {
      // nothing is left between the second cut-offs to start s[i..j]
      TrimmedEnds(s, i, j);
      NonBlankInside(s, i', j', i);
    }
  }

  /** Trimming is determined by its specification: any slice `s[i..j]` with only
      white space cut off around it and no white space at its ends is `Trim(s)`. */
  lemma TrimUnique(s: string, i: nat, j: nat)
    requires i <= j <= |s|
    requires Blank(s[..i]) && Blank(s[j..])
    requires Trimmed(s[i..j])
    ensures Trim(s) == s[i..j]
  {
    var i', j' := TrimIsSlice(s);
    SameCut(s, i, j, i', j');
  }

  /** A cut of only white space around a slice without white space at its ends
      leaves nothing exactly when `s` is all white space. */
  lemma CutEmptyIff(s: string, i: nat, j: nat)
    requires i <= j <= |s| && Blank(s[..i]) && Blank(s[j..]) && Trimmed(s[i..j])
    ensures i == j <==> Blank(s)
  {
    if i == j {
      forall k | 0 <= k < |s| ensures IsWhitespace(s[k]) {
        if k < i { BlankPrefixAt(s, i, k); } else { BlankSuffixAt(s, j, k); }
      }
    } else {
      TrimmedEnds(s, i, j);
    }
  }

  /** Trimming gives nothing exactly when the input is all white space. */
  lemma TrimEmptyIff(s: string)
    ensures Trim(s) == [] <==> Blank(s)
  {
    var i, j := TrimIsSlice(s);
    CutEmptyIff(s, i, j);
  }

  /** Trimming an already trimmed string changes nothing. */
  lemma TrimmedFixpoint(s: string)
    requires Trimmed(s)
    ensures Trim(s) == s
  {
    assert s[..0] == [] && s[|s|..] == [] && s[0..|s|] == s;
    TrimUnique(s, 0, |s|);
  }

  /** Trimming twice is trimming once. */
  lemma TrimIdempotent(s: string)
    ensures Trim(Trim(s)) == Trim(s)
  {
    var _, _ := TrimIsSlice(s);
    TrimmedFixpoint(Trim(s));
  }
}
