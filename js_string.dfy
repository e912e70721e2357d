/**
 * The two JavaScript string operations the scaffolder relies on:
 * `String.prototype.startsWith` and `String.prototype.trim`.
 * A JavaScript string is modelled as a sequence of characters.
 */
module JsString {

  /** `s.startsWith(prefix)`. */
  predicate StartsWith(s: string, prefix: string) {
    |prefix| <= |s| && s[..|prefix|] == prefix
  }

  /**
   * The characters `trim` strips: ECMAScript WhiteSpace (tab, vertical tab,
   * form feed, the byte order mark and every space separator of category Zs)
   * and LineTerminator (line feed, carriage return, line and paragraph separators).
   */
  predicate IsWhiteSpace(c: char) {
    || c == '\t' || c == '\n' || c == '\U{000B}' || c == '\U{000C}' || c == '\r'
    || c == ' ' || c == '\U{00A0}' || c == '\U{1680}'
    || ('\U{2000}' <= c <= '\U{200A}')
    || c == '\U{2028}' || c == '\U{2029}' || c == '\U{202F}' || c == '\U{205F}'
    || c == '\U{3000}' || c == '\U{FEFF}'
  }

  /** Every character of `s` is white space (vacuously so for ""). */
  predicate IsBlank(s: string) {
    forall i :: 0 <= i < |s| ==> IsWhiteSpace(s[i])
  }

  lemma BlankConcat(a: string, b: string)
    requires IsBlank(a) && IsBlank(b)
    ensures IsBlank(a + b)
  {
    forall i | 0 <= i < |a + b| ensures IsWhiteSpace((a + b)[i]) {
      if i < |a| { assert (a + b)[i] == a[i]; } else { assert (a + b)[i] == b[i - |a|]; }
    }
  }

  /** Number of white-space characters at the front of `s`. */
  function LeadingWhiteSpace(s: string): (k: nat)
    ensures k <= |s|
    ensures IsBlank(s[..k])
    ensures k < |s| ==> !IsWhiteSpace(s[k])
  {
    if s == [] || !IsWhiteSpace(s[0]) then 0
    else
      var k := LeadingWhiteSpace(s[1..]);
      assert s[..k + 1] == [s[0]] + s[1..][..k];
      BlankConcat([s[0]], s[1..][..k]);
      k + 1
  }

  /** Number of white-space characters at the back of `s`. */
  function TrailingWhiteSpace(s: string): (k: nat)
    ensures k <= |s|
    ensures IsBlank(s[|s| - k..])
    ensures k < |s| ==> !IsWhiteSpace(s[|s| - k - 1])
  {
    if s == [] || !IsWhiteSpace(s[|s| - 1]) then 0
    else
      var init := s[..|s| - 1];
      var k := TrailingWhiteSpace(init);
      assert s[|s| - (k + 1)..] == init[|init| - k..] + [s[|s| - 1]];
      BlankConcat(init[|init| - k..], [s[|s| - 1]]);
      k + 1
  }

  /** `s.trim()`: drop leading white space, then trailing white space. */
  function Trim(s: string): (r: string)
    ensures |r| <= |s|
    ensures r != [] ==> !IsWhiteSpace(r[0]) && !IsWhiteSpace(r[|r| - 1])
  {
    var t := s[LeadingWhiteSpace(s)..];
    t[..|t| - TrailingWhiteSpace(t)]
  }

  /**
   * What `trim` removes is white space and nothing else: the trimmed string
   * is a slice of `s` with only white space before and after it.
   */
  lemma TrimStripsOnlyWhiteSpace(s: string)
    ensures exists a, b :: 0 <= a <= b <= |s| && Trim(s) == s[a..b] && IsBlank(s[..a]) && IsBlank(s[b..])
  {
    var a := LeadingWhiteSpace(s);
    var t := s[a..];
    var c := TrailingWhiteSpace(t);
    var b := a + |t| - c;
    BlankTail(s, a, c);
    assert Trim(s) == s[a..b];
  }

  /** A blank tail of the suffix `s[a..]` is a blank tail of `s`. */
  lemma BlankTail(s: string, a: nat, c: nat)
    requires a <= |s| && c <= |s| - a && IsBlank(s[a..][|s| - a - c..])
    ensures IsBlank(s[|s| - c..])
  {
    assert s[|s| - c..] == s[a..][|s| - a - c..];
  }

  /** Trimming yields the empty string exactly when `s` is blank. */
  lemma TrimEmptyIffBlank(s: string)
    ensures Trim(s) == [] <==> IsBlank(s)
  {
    var a := LeadingWhiteSpace(s);
    var t := s[a..];
    var c := TrailingWhiteSpace(t);
    assert Trim(s) == t[..|t| - c];
    if IsBlank(s) {
      assert t == [];
    } else {
      var i :| 0 <= i < |s| && !IsWhiteSpace(s[i]);
      assert forall m :: 0 <= m < a ==> IsWhiteSpace(s[m]) by {
        forall m | 0 <= m < a ensures IsWhiteSpace(s[m]) { assert s[..a][m] == s[m]; }
      }
      var j := i - a;
      assert t[j] == s[i];
      assert forall m :: |t| - c <= m < |t| ==> IsWhiteSpace(t[m]) by {
        forall m | |t| - c <= m < |t| ensures IsWhiteSpace(t[m]) {
          assert t[|t| - c..][m - (|t| - c)] == t[m];
        }
      }
      assert |t[..|t| - c]| > 0;
    }
  }
}
