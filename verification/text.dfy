/**
 * `String.prototype.trim`: strips white space and line terminators from both
 * ends. The runs are defined for any character class `p`, so the sequence
 * reasoning never looks inside the white-space table.
 */
module Text {

  // ----- Runs of a character class at either end -----

  predicate All(s: string, p: char -> bool)
  {
    forall k :: 0 <= k < |s| ==> p(s[k])
  }

  /** How many characters of class `p` open `s`. */
  function LeadingRun(s: string, p: char -> bool): (n: nat)
    ensures n <= |s|
  {
    if |s| > 0 && p(s[0]) then 1 + LeadingRun(s[1..], p) else 0
  }

  /** How many characters of class `p` close `s`. */
  function TrailingRun(s: string, p: char -> bool): (n: nat)
    ensures n <= |s|
  {
    if |s| > 0 && p(s[|s| - 1]) then 1 + TrailingRun(s[..|s| - 1], p) else 0
  }

  /** The leading run is of class `p` and stops at the first character outside it. */
  lemma {:induction false} LeadingRunStop(s: string, p: char -> bool)
    ensures All(s[..LeadingRun(s, p)], p)
    ensures LeadingRun(s, p) < |s| ==> !p(s[LeadingRun(s, p)])
  {
    if |s| > 0 && p(s[0]) {
      var m := LeadingRun(s[1..], p);
      LeadingRunStop(s[1..], p);
      assert s[..1 + m] == [s[0]] + s[1..][..m];
      assert s[1 + m..] == s[1..][m..];
    }
  }

  /** The trailing run is of class `p` and stops at the last character outside it. */
  lemma {:induction false} TrailingRunStop(s: string, p: char -> bool)
    ensures All(s[|s| - TrailingRun(s, p)..], p)
    ensures TrailingRun(s, p) < |s| ==> !p(s[|s| - TrailingRun(s, p) - 1])
  {
    if |s| > 0 && p(s[|s| - 1]) {
      var init := s[..|s| - 1];
      var m := TrailingRun(init, p);
      TrailingRunStop(init, p);
      assert s[|s| - (1 + m)..] == init[|init| - m..] + [s[|s| - 1]];
      if 1 + m < |s| {
        assert s[|s| - (1 + m) - 1] == init[|init| - m - 1];
      }
    }
  }

  /** A text made only of class `p` is one leading run. */
  lemma {:induction false} LeadingRunOfAll(s: string, p: char -> bool)
    requires All(s, p)
    ensures LeadingRun(s, p) == |s|
  {
    if |s| > 0 {
      LeadingRunOfAll(s[1..], p);
    }
  }

  lemma {:induction false} LeadingRunOfPadded(pre: string, rest: string, p: char -> bool)
    requires All(pre, p)
    ensures LeadingRun(pre + rest, p) == |pre| + LeadingRun(rest, p)
    decreases |pre|
  {
    if |pre| > 0 {
      assert (pre + rest)[1..] == pre[1..] + rest;
      LeadingRunOfPadded(pre[1..], rest, p);
    } else {
      assert pre + rest == rest;
    }
  }

  lemma {:induction false} TrailingRunOfPadded(core: string, post: string, p: char -> bool)
    requires All(post, p) && |core| > 0 && !p(core[|core| - 1])
    ensures TrailingRun(core + post, p) == |post|
    decreases |post|
  {
    var s := core + post;
    if |post| > 0 {
      assert s[..|s| - 1] == core + post[..|post| - 1];
      TrailingRunOfPadded(core, post[..|post| - 1], p);
    }
  }

  /** `s` without its leading and trailing runs of class `p`. */
  function Strip(s: string, p: char -> bool): string
  {
    var t := s[LeadingRun(s, p)..];
    t[..|t| - TrailingRun(t, p)]
  }

  /** Cutting `b` characters off the end of `t` keeps its first and its new last character. */
  lemma CutEnds(t: string, b: nat, p: char -> bool)
    requires b <= |t|
    requires 0 < |t| ==> !p(t[0])
    requires b < |t| ==> !p(t[|t| - b - 1])
    ensures var r := t[..|t| - b]; r == "" || (!p(r[0]) && !p(r[|r| - 1]))
  {
    var r := t[..|t| - b];
    if r != "" {
      assert r[0] == t[0];
      assert r[|r| - 1] == t[|t| - b - 1];
    }
  }

  /** `s` cut around its slice `r` found at `a`, where the rest after `r` is of class `p`. */
  lemma CutAround(s: string, a: nat, r: string, p: char -> bool)
    requires a + |r| <= |s| && r == s[a..][..|r|] && All(s[a..][|r|..], p)
    ensures s == s[..a] + r + s[a + |r|..]
    ensures All(s[a + |r|..], p)
  {
    assert s[a..][|r|..] == s[a + |r|..];
  }

  lemma StripEnds(s: string, p: char -> bool)
    ensures var r := Strip(s, p); r == "" || (!p(r[0]) && !p(r[|r| - 1]))
  {
    var a := LeadingRun(s, p);
    var t := s[a..];
    LeadingRunStop(s, p);
    TrailingRunStop(t, p);
    if a < |s| {
      assert t[0] == s[a];
    }
    CutEnds(t, TrailingRun(t, p), p);
  }

  lemma StripRemovesOnlyRuns(s: string, p: char -> bool)
    ensures LeadingRun(s, p) + |Strip(s, p)| <= |s|
    ensures s == s[..LeadingRun(s, p)] + Strip(s, p) + s[LeadingRun(s, p) + |Strip(s, p)|..]
    ensures All(s[..LeadingRun(s, p)], p) && All(s[LeadingRun(s, p) + |Strip(s, p)|..], p)
  {
    LeadingRunStop(s, p);
    StripIsSlice(s, p);
    CutAround(s, LeadingRun(s, p), Strip(s, p), p);
  }

  lemma StripIsSlice(s: string, p: char -> bool)
    ensures LeadingRun(s, p) + |Strip(s, p)| <= |s|
    ensures Strip(s, p) == s[LeadingRun(s, p)..][..|Strip(s, p)|]
    ensures All(s[LeadingRun(s, p)..][|Strip(s, p)|..], p)
  {
    var t := s[LeadingRun(s, p)..];
    TrailingRunStop(t, p);
  }

  lemma StripPadded(pre: string, core: string, post: string, p: char -> bool)
    requires All(pre, p) && All(post, p)
    requires core == "" || (!p(core[0]) && !p(core[|core| - 1]))
    ensures Strip(pre + core + post, p) == core
  {
    var s := pre + core + post;
    LeadingRunOfPadded(pre, core + post, p);
    assert s == pre + (core + post);
    var a := LeadingRun(s, p);
    if core == "" {
      assert s[a..] == "" by {
        assert All(s, p) by {
          forall k | 0 <= k < |s| ensures p(s[k]) {
            if k < |pre| { assert s[k] == pre[k]; } else { assert s[k] == post[k - |pre|]; }
          }
        }
        LeadingRunOfAll(s, p);
      }
    } else {
      assert a == |pre|;
      assert s[a..] == core + post;
      TrailingRunOfPadded(core, post, p);
    }
  }

  // ----- ECMAScript white space -----

  /** The characters `trim` strips: ECMAScript white space and line terminators, below and above the ASCII letters. */
  const LowSpaces: string := ['\t', '\n', '\U{000B}', '\U{000C}', '\r', ' ']
  const HighSpaces: string := [
    '\U{00A0}', '\U{1680}', '\U{2000}', '\U{2001}', '\U{2002}', '\U{2003}', '\U{2004}', '\U{2005}', '\U{2006}',
    '\U{2007}', '\U{2008}', '\U{2009}', '\U{200A}', '\U{2028}', '\U{2029}', '\U{202F}', '\U{205F}', '\U{3000}', '\U{FEFF}']

  predicate IsJsSpace(c: char)
  {
    || (c <= ' ' && Among(c, LowSpaces))
    || ('\U{00A0}' <= c && Among(c, HighSpaces))
  }

  /** Membership, unfolded one character at a time. */
  predicate Among(c: char, cs: string)
  {
    |cs| > 0 && (c == cs[0] || Among(c, cs[1..]))
  }

  predicate AllSpace(s: string)
  {
    All(s, IsJsSpace)
  }

  /** How many white-space characters open `s`. */
  function LeadingSpaces(s: string): nat
  {
    LeadingRun(s, IsJsSpace)
  }

  /** `s.trim()`: the text between the leading and the trailing white space. */
  function Trim(s: string): (r: string)
    ensures |r| <= |s|
    ensures AllSpace(s) ==> r == ""
  {
    if AllSpace(s) then LeadingRunOfAll(s, IsJsSpace); Strip(s, IsJsSpace)
    else Strip(s, IsJsSpace)
  }

  /** What `trim` leaves starts and ends with a character other than white space, if it is not empty. */
  lemma TrimShape(s: string)
    ensures Trim(s) == "" || (!IsJsSpace(Trim(s)[0]) && !IsJsSpace(Trim(s)[|Trim(s)| - 1]))
  {
    StripEnds(s, IsJsSpace);
  }

  /** `trim` removes only white space: `s` is its result between two runs of white space. */
  lemma TrimRemovesOnlySpace(s: string)
    ensures LeadingSpaces(s) + |Trim(s)| <= |s|
    ensures s == s[..LeadingSpaces(s)] + Trim(s) + s[LeadingSpaces(s) + |Trim(s)|..]
    ensures AllSpace(s[..LeadingSpaces(s)]) && AllSpace(s[LeadingSpaces(s) + |Trim(s)|..])
  {
    StripRemovesOnlyRuns(s, IsJsSpace);
  }

  /** Padding a word that neither starts nor ends with white space is undone by `trim`. */
  lemma TrimPadded(pre: string, core: string, post: string)
    requires AllSpace(pre) && AllSpace(post)
    requires core == "" || (!IsJsSpace(core[0]) && !IsJsSpace(core[|core| - 1]))
    ensures Trim(pre + core + post) == core
  {
    StripPadded(pre, core, post, IsJsSpace);
  }
}
