/**
 * `String.trim` as the Java library defines it: every leading and every
 * trailing character whose code is at most U+0020 is dropped.
 */
module Text {

  /** A character `trim` drops from either end: a control character or the space. */
  predicate IsBlank(c: char) {
    c <= ' '
  }

  /** The number of blanks `s` starts with. */
  function LeadingBlanks(s: string): (n: nat)
    ensures n <= |s|
    ensures forall i :: 0 <= i < n ==> IsBlank(s[i])
    ensures n == |s| || !IsBlank(s[n])
  {
    if |s| > 0 && IsBlank(s[0]) then
      var n := 1 + LeadingBlanks(s[1..]);
      assert forall i :: 1 <= i < n ==> s[i] == s[1..][i - 1];
      n
    else 0
  }

  /** The number of blanks `s` ends with. */
  function TrailingBlanks(s: string): (n: nat)
    ensures n <= |s|
    ensures forall i :: |s| - n <= i < |s| ==> IsBlank(s[i])
    ensures n == |s| || !IsBlank(s[|s| - n - 1])
  {
    if |s| > 0 && IsBlank(s[|s| - 1]) then
      var n := 1 + TrailingBlanks(s[..|s| - 1]);
      assert forall i :: |s| - n <= i < |s| - 1 ==> s[i] == s[..|s| - 1][i];
      n
    else 0
  }

  /**
   * `trim`: the slice of `s` between its leading and its trailing blanks;
   * what is left starts and ends with a non-blank.
   */
  function Trim(s: string): (r: string)
    ensures |r| <= |s|
    ensures r == [] || (!IsBlank(r[0]) && !IsBlank(r[|r| - 1]))
  {
    var t := s[LeadingBlanks(s)..];
    t[..|t| - TrailingBlanks(t)]
  }

  /** `trim` keeps the slice of `s` that starts after its leading blanks. */
  lemma TrimIsSlice(s: string)
    ensures var k := LeadingBlanks(s); var r := Trim(s);
      k + |r| <= |s| && r == s[k..k + |r|]
  {
  }

  /** What `trim` drops, before and after the slice it keeps, is blanks only. */
  lemma TrimDropsOnlyBlanks(s: string)
    ensures var k := LeadingBlanks(s); var r := Trim(s);
      && (forall i :: 0 <= i < k ==> IsBlank(s[i]))
      && (forall i :: k + |r| <= i < |s| ==> IsBlank(s[i]))
  {
    var k := LeadingBlanks(s);
    var t := s[k..];
    var r := Trim(s);
    forall i | k + |r| <= i < |s|
      ensures IsBlank(s[i])
    {
      assert s[i] == t[i - k];
    }
  }

  /** `trim` yields the empty string exactly when every character is blank. */
  lemma TrimEmptyIffBlank(s: string)
    ensures Trim(s) == [] <==> forall i :: 0 <= i < |s| ==> IsBlank(s[i])
  {
    if Trim(s) == [] {
      TrimDropsOnlyBlanks(s);
    }
  }

  /** Trimming twice is trimming once. */
  lemma TrimIdempotent(s: string)
    ensures Trim(Trim(s)) == Trim(s)
  {
    var r := Trim(s);
    if r != [] {
      assert LeadingBlanks(r) == 0;
      assert TrailingBlanks(r) == 0;
    }
  }
}
