// The two string primitives the page's handlers rely on: String.prototype.trim
// and String.prototype.toUpperCase, over Dafny strings (sequences of Unicode
// scalar values).

module Strings {

  /** ECMAScript WhiteSpace and LineTerminator code points (sections 11.2 and
      11.3 of ECMA-262, 6th edition): TAB, VT, FF, SP, NBSP, ZWNBSP, the other
      space separators of Unicode category Zs, LF, CR, LS and PS. */
  predicate IsWhitespace(c: char) {
    c == '\t' || c == '\U{000B}' || c == '\U{000C}' || c == ' ' ||
    c == '\U{00A0}' || c == '\U{FEFF}' ||
    c == '\U{1680}' || ('\U{2000}' <= c <= '\U{200A}') ||
    c == '\U{202F}' || c == '\U{205F}' || c == '\U{3000}' ||
    c == '\n' || c == '\r' || c == '\U{2028}' || c == '\U{2029}'
  }

  predicate AllWhitespace(s: string) {
    forall i :: 0 <= i < |s| ==> IsWhitespace(s[i])
  }

  /** Every character of s at an index in [lo, hi) is whitespace. */
  predicate WhitespaceBetween(s: string, lo: nat, hi: nat)
    requires hi <= |s|
  {
    forall k :: lo <= k < hi ==> IsWhitespace(s[k])
  }

  /** Neither the first nor the last character of s is whitespace. */
  predicate Trimmed(s: string) {
    s == [] || (!IsWhitespace(s[0]) && !IsWhitespace(s[|s| - 1]))
  }

  /** Drops the longest all-whitespace prefix of s. */
  function TrimStart(s: string): (r: string)
    ensures |r| <= |s| && r == s[|s| - |r|..]
    ensures WhitespaceBetween(s, 0, |s| - |r|)
    ensures r == [] || !IsWhitespace(r[0])
  {
    if s != [] && IsWhitespace(s[0]) then
      TrimStart(s[1..])
    else
      s
  }

  /** Drops the longest all-whitespace suffix of s. */
  function TrimEnd(s: string): (r: string)
    ensures |r| <= |s| && r == s[..|r|]
    ensures WhitespaceBetween(s, |r|, |s|)
    ensures r == [] || !IsWhitespace(r[|r| - 1])
  {
    if s != [] && IsWhitespace(s[|s| - 1]) then
      TrimEnd(s[..|s| - 1])
    else
      s
  }

  /** String.prototype.trim: whitespace removed from both ends. */
  function Trim(s: string): (r: string)
    ensures |r| <= |s|
    ensures Trimmed(r)
    ensures r == [] <==> AllWhitespace(s)
  {
    TrimStartThenEnd(s);
    TrimEnd(TrimStart(s))
  }

  lemma TrimStartThenEnd(s: string)
    ensures var r := TrimEnd(TrimStart(s)); Trimmed(r) && (r == [] <==> AllWhitespace(s))
  {
    var t := TrimStart(s);
    var r := TrimEnd(t);
    assert t != [] ==> t[0] == s[|s| - |t|];
    assert r != [] ==> r[0] == t[0];
    if r == [] {
      assert t == [];
    }
  }

  /** s[i..j] is what is left of s once whitespace-only runs s[..i] and s[j..]
      are cut off, and it has no whitespace at either end. */
  predicate TrimSplit(s: string, i: nat, j: nat) {
    i <= j <= |s| && WhitespaceBetween(s, 0, i) && WhitespaceBetween(s, j, |s|) && Trimmed(s[i..j])
  }

  /** Reference definition of trimming, independent of how Trim computes it. */
  ghost predicate IsTrimOf(r: string, s: string) {
    exists i: nat, j: nat :: TrimSplit(s, i, j) && r == s[i..j]
  }

  /** Trim meets the reference definition ... */
  lemma TrimIsTrimOf(s: string)
    ensures IsTrimOf(Trim(s), s)
  {
    var t := TrimStart(s);
    var r := TrimEnd(t);
    var i := |s| - |t|;
    var j := i + |r|;
    assert t[..|r|] == s[i..j];
    assert TrimSplit(s, i, j);
  }

  /** ... and no other string does. */
  lemma TrimOfIsUnique(r: string, s: string)
    requires IsTrimOf(r, s)
    ensures r == Trim(s)
  {
    var i: nat, j: nat :| TrimSplit(s, i, j) && r == s[i..j];
    TrimIsTrimOf(s);
    var i': nat, j': nat :| TrimSplit(s, i', j') && Trim(s) == s[i'..j'];
    SplitsAgree(s, i, j, i', j');
  }

  lemma SplitsAgree(s: string, i: nat, j: nat, i': nat, j': nat)
    requires TrimSplit(s, i, j) && TrimSplit(s, i', j')
    ensures s[i..j] == s[i'..j']
  {
    if i < j && i' < j' {
      assert s[i..j][0] == s[i] && s[i'..j'][0] == s[i'];
      assert s[i..j][j - i - 1] == s[j - 1] && s[i'..j'][j' - i' - 1] == s[j' - 1];
    }
  }

  /** Trimming an already trimmed string changes nothing. */
  lemma TrimOfTrimmed(s: string)
    requires Trimmed(s)
    ensures Trim(s) == s
  {
  }

  lemma TrimIdempotent(s: string)
    ensures Trim(Trim(s)) == Trim(s)
  {
    TrimOfTrimmed(Trim(s));
  }

  predicate IsLower(c: char) { 'a' <= c <= 'z' }

  predicate IsUpper(c: char) { 'A' <= c <= 'Z' }

  predicate NoLowercase(s: string) {
    forall i :: 0 <= i < |s| ==> !IsLower(s[i])
  }

  /** ASCII case folding to lower case, the yardstick for "same letters". */
  function LowerChar(c: char): char {
    if IsUpper(c) then (c as int + 32) as char else c
  }

  /** a and b spell the same text when ASCII letter case is ignored. */
  predicate SameIgnoringCase(a: string, b: string) {
    |a| == |b| && forall i :: 0 <= i < |a| ==> LowerChar(a[i]) == LowerChar(b[i])
  }

  function UpperChar(c: char): char {
    if IsLower(c) then (c as int - 32) as char else c
  }

  /** String.prototype.toUpperCase restricted to ASCII: a-z become A-Z and
      every other character is left alone. */
  function ToUpper(s: string): (r: string)
    ensures NoLowercase(r)
    ensures SameIgnoringCase(r, s)
    ensures forall i :: 0 <= i < |s| && !IsLower(s[i]) ==> r[i] == s[i]
  {
    seq(|s|, i requires 0 <= i < |s| => UpperChar(s[i]))
  }

  /** ToUpper(s) is the one string without lower-case letters that equals s
      up to letter case. */
  lemma ToUpperIsUnique(t: string, s: string)
    requires NoLowercase(t) && SameIgnoringCase(t, s)
    ensures t == ToUpper(s)
  {
    var u := ToUpper(s);
    forall i | 0 <= i < |s| ensures t[i] == u[i] {
      assert !IsLower(t[i]) && LowerChar(t[i]) == LowerChar(s[i]);
    }
  }

  /** Upper-casing touches no whitespace, so a trimmed string stays trimmed. */
  lemma ToUpperKeepsTrimmed(s: string)
    requires Trimmed(s)
    ensures Trimmed(ToUpper(s))
  {
    var r := ToUpper(s);
    if s != [] {
      assert IsWhitespace(r[0]) == IsWhitespace(s[0]);
      assert IsWhitespace(r[|r| - 1]) == IsWhitespace(s[|s| - 1]);
    }
  }

  lemma ToUpperOfUpper(s: string)
    requires NoLowercase(s)
    ensures ToUpper(s) == s
  {
    ToUpperIsUnique(s, s);
  }
}
