/** ECMAScript white space and the `trimEnd` / `trim` string methods used by the plugin. */
module Strings {
  import opened Sequences

  /** The ECMAScript LineTerminator characters: the ones `.` in a regular expression does not match. */
  predicate IsLineTerminator(c: char) {
    c == '\n' || c == '\r' || c == '\U{2028}' || c == '\U{2029}'
  }

  /** ECMAScript WhiteSpace or LineTerminator: what `\s`, `trim` and `trimEnd` treat as blank
      (tab, vertical tab, form feed, the byte-order mark and the Unicode space separators). */
  predicate IsWhite(c: char) {
    IsLineTerminator(c) || c == '\t' || c == '\U{000B}' || c == '\U{000C}' || c == ' '
    || c == '\U{00A0}' || c == '\U{FEFF}' || c == '\U{1680}' || ('\U{2000}' <= c <= '\U{200A}')
    || c == '\U{202F}' || c == '\U{205F}' || c == '\U{3000}'
  }

  predicate AllWhite(s: string) {
    forall k :: 0 <= k < |s| ==> IsWhite(s[k])
  }

  predicate NoLineTerminator(s: string) {
    forall k :: 0 <= k < |s| ==> !IsLineTerminator(s[k])
  }

  /** Length of the longest all-white prefix of `s`. */
  function LeadingWhite(s: string): (n: nat)
    ensures n <= |s| && AllWhite(s[..n])
    ensures n < |s| ==> !IsWhite(s[n])
  {
    if s == [] || !IsWhite(s[0]) then 0
    else
      var n' := LeadingWhite(s[1..]);
      assert s[..1 + n'] == [s[0]] + s[1..][..n'];
      1 + n'
  }

  /** Length of the longest all-white suffix of `s`. */
  function TrailingWhite(s: string): (n: nat)
    ensures n <= |s| && AllWhite(s[|s| - n..])
    ensures n < |s| ==> !IsWhite(s[|s| - n - 1])
  {
    if s == [] || !IsWhite(s[|s| - 1]) then 0
    else
      var init := s[..|s| - 1];
      var n' := TrailingWhite(init);
      assert s[|s| - (1 + n')..] == init[|init| - n'..] + [s[|s| - 1]];
      1 + n'
  }

  /** `String.prototype.trimStart`. */
  function TrimStart(s: string): (r: string)
    ensures |r| <= |s| && r == s[|s| - |r|..]
    ensures AllWhite(s[..|s| - |r|])
    ensures r == [] || !IsWhite(r[0])
  {
    s[LeadingWhite(s)..]
  }

  /** `String.prototype.trimEnd`: `s` minus its trailing white space, nothing else. */
  function TrimEnd(s: string): (r: string)
    ensures |r| <= |s| && r == s[..|r|]
    ensures AllWhite(s[|r|..])
    ensures r == [] || !IsWhite(r[|r| - 1])
  {
    s[..|s| - TrailingWhite(s)]
  }

  /** `String.prototype.trim`. */
  function Trim(s: string): (r: string)
    ensures r == [] || (!IsWhite(r[0]) && !IsWhite(r[|r| - 1]))
  {
    var t := TrimStart(s);
    var r := TrimEnd(t);
    assert r != [] ==> r[0] == t[0];
    r
  }

  /** A string that neither starts nor ends with white space is its own trim. */
  lemma TrimUnchanged(s: string)
    requires s != [] && !IsWhite(s[0]) && !IsWhite(s[|s| - 1])
    ensures Trim(s) == s
  {
    assert "" + s == s && s + "" == s;
    LeadingWhiteOf("", s);
    TrailingWhiteOf(s, "");
  }

  /** White space in front of a non-white character is exactly what `trimStart` drops. */
  lemma {:induction false} LeadingWhiteOf(w: string, s: string)
    requires AllWhite(w) && s != [] && !IsWhite(s[0])
    ensures LeadingWhite(w + s) == |w|
    ensures TrimStart(w + s) == s
  {
    if w != [] {
      assert (w + s)[1..] == w[1..] + s;
      LeadingWhiteOf(w[1..], s);
    } else {
      assert w + s == s;
    }
  }

  /** White space after a non-white character is exactly what `trimEnd` drops. */
  lemma {:induction false} TrailingWhiteOf(s: string, w: string)
    requires AllWhite(w) && s != [] && !IsWhite(s[|s| - 1])
    ensures TrailingWhite(s + w) == |w|
    ensures TrimEnd(s + w) == s
  {
    if w != [] {
      var w' := w[..|w| - 1];
      assert (s + w)[..|s + w| - 1] == s + w';
      TrailingWhiteOf(s, w');
    } else {
      assert s + w == s;
    }
  }

  /** `trimEnd` is characterised by its three properties: any split of `s` into a prefix that is
      empty or ends in a non-white character and an all-white rest is the one `trimEnd` makes. */
  lemma TrimEndUnique(s: string, p: string, w: string)
    requires s == p + w && AllWhite(w)
    requires p == [] || !IsWhite(p[|p| - 1])
    ensures TrimEnd(s) == p
  {
    if p == [] {
      AllWhiteTrimEnd(w);
      assert s == w;
    } else {
      TrailingWhiteOf(p, w);
    }
  }

  /** An all-white string trims to nothing. */
  lemma {:induction false} AllWhiteTrimEnd(w: string)
    requires AllWhite(w)
    ensures TrimEnd(w) == []
  {
    if w != [] {
      AllWhiteTrimEnd(w[..|w| - 1]);
    }
  }

  /** What `trim` drops is white space on either side, nothing else. */
  lemma TrimSplits(s: string) returns (w1: string, w2: string)
    ensures AllWhite(w1) && AllWhite(w2) && s == w1 + Trim(s) + w2
  {
    var ts := TrimStart(s);
    var t := TrimEnd(ts);
    w1, w2 := s[..|s| - |ts|], ts[|t|..];
    assert s == w1 + ts by { SplitAt(s, |s| - |ts|); }
    assert ts == t + w2 by { SplitAt(ts, |t|); }
    Regroup(s, w1, ts, t, w2);
  }
}
