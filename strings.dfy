/** Python's str operations used by the schedule engine, over seq<char>. */
module Strings {

  /** `s.startswith(p)` */
  predicate IsPrefix(p: string, s: string) {
    |p| <= |s| && s[..|p|] == p
  }

  /** `s.endswith(p)` */
  predicate IsSuffix(p: string, s: string) {
    |p| <= |s| && s[|s| - |p|..] == p
  }

  /** `p in s`: the empty string is a substring of every string. */
  predicate IsSubstring(p: string, s: string)
    decreases |s|
  {
    IsPrefix(p, s) || (|s| > 0 && IsSubstring(p, s[1..]))
  }

  lemma {:induction false} SubstringOfSelf(s: string)
    ensures IsSubstring(s, s)
  {
    assert s[..|s|] == s;
  }

  /** A pattern holding a character the text lacks does not occur in it. */
  lemma {:induction false} NotSubstringWithoutChar(p: string, s: string, c: char)
    requires c in p && c !in s
    ensures !IsSubstring(p, s)
    decreases |s|
  {
    assert !IsPrefix(p, s) by {
      if |p| <= |s| {
        var i :| 0 <= i < |p| && p[i] == c;
        assert s[..|p|][i] == s[i];
      }
    }
    if |s| > 0 {
      assert forall i :: 0 <= i < |s[1..]| ==> s[1..][i] == s[i + 1];
      NotSubstringWithoutChar(p, s[1..], c);
    }
  }

  /** Every element of r occurs in s, in the same order. */
  predicate IsSubsequence(r: string, s: string)
    decreases |s|
  {
    if |r| == 0 then true
    else if |s| == 0 then false
    else if r[0] == s[0] then IsSubsequence(r[1..], s[1..])
    else IsSubsequence(r, s[1..])
  }

  lemma {:induction false} SubsequenceDropHead(r: string, s: string)
    requires |r| > 0 && IsSubsequence(r, s)
    ensures IsSubsequence(r[1..], s)
    decreases |s|, 0
  {
    assert [s[0]] + s[1..] == s;
    if r[0] != s[0] {
      SubsequenceDropHead(r, s[1..]);
    }
    SubsequenceCons(r[1..], s[1..], s[0]);
  }

  /** Putting one more character in front of s keeps every subsequence of s. */
  lemma {:induction false} SubsequenceCons(r: string, s: string, c: char)
    requires IsSubsequence(r, s)
    ensures IsSubsequence(r, [c] + s)
    decreases |s|, 1
  {
    var cs := [c] + s;
    assert cs[1..] == s;
    if |r| > 0 && r[0] == c {
      SubsequenceDropHead(r, s);
    }
  }

  lemma {:induction false} SubsequenceTransitive(a: string, b: string, c: string)
    requires IsSubsequence(a, b) && IsSubsequence(b, c)
    ensures IsSubsequence(a, c)
    decreases |c|
  {
    if |a| > 0 && |c| > 0 {
      if b[0] == c[0] && a[0] == b[0] {
        SubsequenceTransitive(a[1..], b[1..], c[1..]);
      } else {
        if b[0] == c[0] {
          SubsequenceTransitive(a, b[1..], c[1..]);
        } else {
          SubsequenceTransitive(a, b, c[1..]);
        }
        SubsequenceCons(a, c[1..], c[0]);
        assert [c[0]] + c[1..] == c;
      }
    }
  }

  /** The characters of s for which keep holds, in order (a regex character-class removal):
      each kept character as often as in s, and no other. */
  function Keep(s: string, keep: char -> bool): (r: string)
    ensures forall i :: 0 <= i < |r| ==> keep(r[i])
    ensures forall i :: 0 <= i < |s| && keep(s[i]) ==> s[i] in r
    ensures forall c :: keep(c) ==> multiset(r)[c] == multiset(s)[c]
    ensures IsSubsequence(r, s)
    decreases |s|
  {
    if |s| == 0 then []
    else
      var rest := Keep(s[1..], keep);
      assert forall i :: 1 <= i < |s| ==> s[i] == s[1..][i - 1];
      assert [s[0]] + s[1..] == s;
      assert multiset(s) == multiset([s[0]]) + multiset(s[1..]);
      if keep(s[0]) then
        var r := [s[0]] + rest;
        assert r[1..] == rest;
        assert multiset(r) == multiset([s[0]]) + multiset(rest);
        r
      else
        SubsequenceCons(rest, s[1..], s[0]);
        rest
  }

  /** Python's string order `a < b`: lexicographic by code point, a proper prefix first. */
  predicate LexLt(a: string, b: string)
    decreases |a|
  {
    if |a| == 0 then |b| > 0
    else if |b| == 0 then false
    else if a[0] != b[0] then a[0] < b[0]
    else LexLt(a[1..], b[1..])
  }

  /** Python's `a <= b` on strings. */
  predicate LexLe(a: string, b: string) {
    a == b || LexLt(a, b)
  }

  lemma {:induction false} LexLtIrreflexive(a: string)
    ensures !LexLt(a, a)
    decreases |a|
  {
    if |a| > 0 {
      LexLtIrreflexive(a[1..]);
    }
  }

  lemma {:induction false} LexLtTransitive(a: string, b: string, c: string)
    requires LexLt(a, b) && LexLt(b, c)
    ensures LexLt(a, c)
    decreases |a|
  {
    if |a| > 0 && a[0] == b[0] && b[0] == c[0] {
      LexLtTransitive(a[1..], b[1..], c[1..]);
    }
  }

  lemma {:induction false} LexLtTrichotomy(a: string, b: string)
    ensures a == b || LexLt(a, b) || LexLt(b, a)
    decreases |a|
  {
    if |a| > 0 && |b| > 0 && a[0] == b[0] {
      LexLtTrichotomy(a[1..], b[1..]);
      if a[1..] == b[1..] {
        assert a == [a[0]] + a[1..];
        assert b == [b[0]] + b[1..];
      }
    }
  }

  lemma LexLtAsymmetric(a: string, b: string)
    requires LexLt(a, b)
    ensures !LexLt(b, a)
  {
    if LexLt(b, a) {
      LexLtTransitive(a, b, a);
      LexLtIrreflexive(a);
    }
  }

  /** Python's `a > b` is exactly `not (a <= b)`: the order is total. */
  lemma LexNotLe(a: string, b: string)
    ensures !LexLe(a, b) <==> LexLt(b, a)
  {
    LexLtTrichotomy(a, b);
    if LexLt(b, a) {
      LexLtAsymmetric(b, a);
      LexLtIrreflexive(a);
    }
  }

  lemma LexLeTransitive(a: string, b: string, c: string)
    requires LexLe(a, b) && LexLe(b, c)
    ensures LexLe(a, c)
  {
    if a != b && b != c {
      LexLtTransitive(a, b, c);
    }
  }

  /** `s.replace(pat, rep)`: every non-overlapping occurrence, scanning left to right; an
      empty pat inserts rep before every character and at the end. */
  function ReplaceAll(s: string, pat: string, rep: string): string
    decreases |s|
  {
    if |pat| == 0 then
      if |s| == 0 then rep else rep + [s[0]] + ReplaceAll(s[1..], pat, rep)
    else if IsPrefix(pat, s) then rep + ReplaceAll(s[|pat|..], pat, rep)
    else if |s| == 0 then []
    else [s[0]] + ReplaceAll(s[1..], pat, rep)
  }

  /** A string without the (non-empty) pattern is left alone. */
  lemma {:induction false} ReplaceAllAbsent(s: string, pat: string, rep: string)
    requires |pat| > 0 && !IsSubstring(pat, s)
    ensures ReplaceAll(s, pat, rep) == s
    decreases |s|
  {
    if |s| > 0 {
      ReplaceAllAbsent(s[1..], pat, rep);
      assert s == [s[0]] + s[1..];
    }
  }

  /** Replacing a pattern by itself changes nothing. */
  lemma {:induction false} ReplaceAllSelf(s: string, pat: string)
    requires |pat| > 0
    ensures ReplaceAll(s, pat, pat) == s
    decreases |s|
  {
    if IsPrefix(pat, s) {
      ReplaceAllSelf(s[|pat|..], pat);
      assert s == pat + s[|pat|..];
    } else if |s| > 0 {
      ReplaceAllSelf(s[1..], pat);
      assert s == [s[0]] + s[1..];
    }
  }

  /** A string that is exactly the pattern becomes the replacement. */
  lemma ReplaceAllWhole(pat: string, rep: string)
    requires |pat| > 0
    ensures ReplaceAll(pat, pat, rep) == rep
  {
    assert IsPrefix(pat, pat) && pat[|pat|..] == [];
  }

  /** A pattern holding a character the text lacks is never replaced. */
  lemma ReplaceAllLacking(s: string, pat: string, rep: string, c: char)
    requires c in pat && c !in s
    ensures ReplaceAll(s, pat, rep) == s
  {
    NotSubstringWithoutChar(pat, s, c);
    ReplaceAllAbsent(s, pat, rep);
  }

  /** Replacing a single character by text that lacks it removes every occurrence of it. */
  lemma {:induction false} ReplaceAllRemovesChar(s: string, c: char, rep: string)
    requires c !in rep
    ensures c !in ReplaceAll(s, [c], rep)
    decreases |s|
  {
    if |s| > 0 {
      ReplaceAllRemovesChar(s[1..], c, rep);
      if IsPrefix([c], s) {
        assert s[|[c]|..] == s[1..];
      } else {
        assert s[..1] == [s[0]];
      }
    }
  }

  /** Replacing one character by another maps s position by position. */
  lemma {:induction false} ReplaceCharPointwise(s: string, c: char, d: char)
    ensures |ReplaceAll(s, [c], [d])| == |s|
    ensures forall i :: 0 <= i < |s| ==> ReplaceAll(s, [c], [d])[i] == if s[i] == c then d else s[i]
    decreases |s|
  {
    if |s| > 0 {
      ReplaceCharPointwise(s[1..], c, d);
      var t := ReplaceAll(s[1..], [c], [d]);
      if IsPrefix([c], s) {
        assert s[|[c]|..] == s[1..];
        assert ReplaceAll(s, [c], [d]) == [d] + t;
      } else {
        assert s[..1] == [s[0]];
        assert ReplaceAll(s, [c], [d]) == [s[0]] + t;
      }
    }
  }

  /** An empty pattern puts rep into each of the |s| + 1 gaps of s. */
  lemma {:induction false} ReplaceAllEmptyPatternLength(s: string, rep: string)
    ensures |ReplaceAll(s, [], rep)| == |s| + (|s| + 1) * |rep|
    decreases |s|
  {
    if |s| > 0 {
      ReplaceAllEmptyPatternLength(s[1..], rep);
    }
  }

  /** `for key, value in rs: s = s.replace(key, value)`, in mapping order. */
  function ApplyReplacements(s: string, rs: seq<(string, string)>): string
    decreases |rs|
  {
    if |rs| == 0 then s else ApplyReplacements(ReplaceAll(s, rs[0].0, rs[0].1), rs[1..])
  }

  /** Each pair rewrites the result of all pairs before it, so a later key can match text
      an earlier value put in. */
  lemma {:induction false} ApplyReplacementsSnoc(s: string, rs: seq<(string, string)>, key: string, value: string)
    ensures ApplyReplacements(s, rs + [(key, value)]) == ReplaceAll(ApplyReplacements(s, rs), key, value)
    decreases |rs|
  {
    if |rs| == 0 {
      assert rs + [(key, value)] == [(key, value)];
    } else {
      assert (rs + [(key, value)])[1..] == rs[1..] + [(key, value)];
      ApplyReplacementsSnoc(ReplaceAll(s, rs[0].0, rs[0].1), rs[1..], key, value);
    }
  }

  /** A title that contains none of the (non-empty) keys is left unchanged. */
  lemma {:induction false} ApplyReplacementsAbsent(s: string, rs: seq<(string, string)>)
    requires forall i :: 0 <= i < |rs| ==> |rs[i].0| > 0 && !IsSubstring(rs[i].0, s)
    ensures ApplyReplacements(s, rs) == s
    decreases |rs|
  {
    if |rs| > 0 {
      ReplaceAllAbsent(s, rs[0].0, rs[0].1);
      ApplyReplacementsAbsent(s, rs[1..]);
    }
  }
}
