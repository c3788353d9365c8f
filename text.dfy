/** The JavaScript string operations the CLI relies on, over `string` (= seq<char>). */
module Text {

  /** String.prototype.startsWith */
  predicate StartsWith(s: string, p: string) {
    |p| <= |s| && s[..|p|] == p
  }

  /** String.prototype.endsWith */
  predicate EndsWith(s: string, p: string) {
    |p| <= |s| && s[|s| - |p|..] == p
  }

  /** `p` occurs in `s` at index `i`. */
  predicate OccursAt(s: string, p: string, i: nat) {
    i + |p| <= |s| && s[i..i + |p|] == p
  }

  /** String.prototype.includes */
  predicate Contains(s: string, p: string)
    decreases |s|
  {
    StartsWith(s, p) || (|s| > 0 && Contains(s[1..], p))
  }

  lemma {:induction false} ContainsIffOccurs(s: string, p: string)
    ensures Contains(s, p) <==> exists i: nat :: OccursAt(s, p, i)
    decreases |s|
  {
    if StartsWith(s, p) {
      assert OccursAt(s, p, 0);
    } else if |s| == 0 {
    } else {
      ContainsIffOccurs(s[1..], p);
      if Contains(s[1..], p) {
        var i: nat :| OccursAt(s[1..], p, i);
        assert s[1..][i..i + |p|] == s[i + 1..i + 1 + |p|];
        assert OccursAt(s, p, i + 1);
      } else {
        forall i: nat | OccursAt(s, p, i) ensures false {
          if i > 0 {
            assert s[1..][i - 1..i - 1 + |p|] == s[i..i + |p|];
            assert OccursAt(s[1..], p, i - 1);
          }
        }
      }
    }
  }

  /** A string shorter than the pattern does not contain it. */
  lemma ShortDoesNotContain(s: string, p: string)
    requires |s| < |p|
    ensures !Contains(s, p)
  {
    ContainsIffOccurs(s, p);
  }

  /** A string one longer than the pattern contains it only at offset 0 or 1. */
  lemma OneLongerNotContained(s: string, p: string)
    requires |s| == |p| + 1 && !OccursAt(s, p, 0) && !OccursAt(s, p, 1)
    ensures !Contains(s, p)
  {
    ContainsIffOccurs(s, p);
  }

  /** A pattern that `s` does not start with, and whose first character appears nowhere
      else in `s`, does not occur in `s`. */
  lemma HeadOnlyAtStart(s: string, p: string)
    requires |p| > 0 && !StartsWith(s, p)
    requires forall i :: 0 < i < |s| ==> s[i] != p[0]
    ensures !Contains(s, p)
  {
    ContainsIffOccurs(s, p);
    forall i: nat | i + |p| <= |s| ensures !OccursAt(s, p, i) {
      if i > 0 {
        assert s[i..i + |p|][0] == s[i];
      } else {
        assert s[..|p|] == s[i..i + |p|];
      }
    }
  }

  /** `a + b` contains `b`. */
  lemma {:induction false} ContainsSuffix(a: string, b: string)
    ensures Contains(a + b, b)
    decreases |a|
  {
    if |a| == 0 {
      assert a + b == b;
      assert StartsWith(b, b);
    } else {
      assert (a + b)[1..] == a[1..] + b;
      ContainsSuffix(a[1..], b);
    }
  }

  /** A string that contains `m` keeps containing it when text is added around it. */
  lemma ContainsInside(a: string, m: string, b: string, p: string)
    requires Contains(m, p)
    ensures Contains(a + m + b, p)
  {
    ContainsIffOccurs(m, p);
    var i: nat :| OccursAt(m, p, i);
    assert (a + m + b)[|a| + i..|a| + i + |p|] == m[i..i + |p|];
    assert OccursAt(a + m + b, p, |a| + i);
    ContainsIffOccurs(a + m + b, p);
  }

  /** `a + b + c` contains every tail of `a` followed by `b`. */
  lemma ContainsJoin(a: string, b: string, c: string, j: nat)
    requires j <= |a|
    ensures Contains(a + b + c, a[j..] + b)
  {
    var m := a[j..] + b;
    assert a + b + c == a[..j] + m + c;
    assert StartsWith(m, m);
    ContainsInside(a[..j], m, c, m);
  }

  /** What the first of the joined strings contains, the joined string contains. */
  lemma JoinHeadContains(xs: seq<string>, sep: string, p: string)
    requires |xs| > 0 && Contains(xs[0], p)
    ensures Contains(Join(xs, sep), p)
  {
    if |xs| > 1 {
      var rest := sep + Join(xs[1..], sep);
      ContainsInside("", xs[0], rest, p);
      assert "" + xs[0] + rest == Join(xs, sep);
    }
  }

  /** String.prototype.replace with a string pattern: only the leftmost occurrence of `p`
      is replaced (the empty pattern matches at index 0); no occurrence leaves `s` as it is. */
  function ReplaceFirst(s: string, p: string, r: string): string
    decreases |s|
  {
    if StartsWith(s, p) then r + s[|p|..]
    else if |s| == 0 then s
    else [s[0]] + ReplaceFirst(s[1..], p, r)
  }

  /** String.prototype.replace with the global regular expression of the literal `p`:
      occurrences are replaced left to right, without overlapping. */
  function ReplaceAll(s: string, p: string, r: string): string
    requires |p| > 0
    decreases |s|
  {
    if StartsWith(s, p) then r + ReplaceAll(s[|p|..], p, r)
    else if |s| == 0 then s
    else [s[0]] + ReplaceAll(s[1..], p, r)
  }

  lemma {:induction false} ReplaceFirstAbsent(s: string, p: string, r: string)
    requires !Contains(s, p)
    ensures ReplaceFirst(s, p, r) == s
    decreases |s|
  {
    if |s| > 0 {
      ReplaceFirstAbsent(s[1..], p, r);
    }
  }

  /** Only the leftmost occurrence is replaced; the text after it is kept verbatim. */
  lemma {:induction false} ReplaceFirstLeftmost(a: string, p: string, b: string, r: string)
    requires forall i: nat :: i < |a| ==> !OccursAt(a + p + b, p, i)
    ensures ReplaceFirst(a + p + b, p, r) == a + r + b
    decreases |a|
  {
    var s := a + p + b;
    if |a| == 0 {
      assert s == p + b;
      assert s[..|p|] == p;
      assert s[|p|..] == b;
    } else {
      assert !OccursAt(s, p, 0);
      assert s[1..] == a[1..] + p + b;
      forall i: nat | i < |a[1..]| ensures !OccursAt(a[1..] + p + b, p, i) {
        assert !OccursAt(s, p, i + 1);
        assert s[i + 1..i + 1 + |p|] == (a[1..] + p + b)[i..i + |p|];
      }
      ReplaceFirstLeftmost(a[1..], p, b, r);
      assert [a[0]] + (a[1..] + r + b) == a + r + b;
    }
  }

  lemma {:induction false} ReplaceAllAbsent(s: string, p: string, r: string)
    requires |p| > 0
    requires !Contains(s, p)
    ensures ReplaceAll(s, p, r) == s
    decreases |s|
  {
    if |s| > 0 {
      ReplaceAllAbsent(s[1..], p, r);
    }
  }

  /** Replacing a pattern by itself changes nothing. */
  lemma {:induction false} ReplaceAllSelf(s: string, p: string)
    requires |p| > 0
    ensures ReplaceAll(s, p, p) == s
    decreases |s|
  {
    if StartsWith(s, p) {
      ReplaceAllSelf(s[|p|..], p);
      assert s == s[..|p|] + s[|p|..];
    } else if |s| > 0 {
      ReplaceAllSelf(s[1..], p);
      assert s == [s[0]] + s[1..];
    }
  }

  /** The leftmost occurrence is replaced and the search resumes after it: together with
      ReplaceAllAbsent this determines ReplaceAll on every input. */
  lemma {:induction false} ReplaceAllLeftmost(a: string, p: string, b: string, r: string)
    requires |p| > 0
    requires forall i: nat :: i < |a| ==> !OccursAt(a + p + b, p, i)
    ensures ReplaceAll(a + p + b, p, r) == a + r + ReplaceAll(b, p, r)
    decreases |a|
  {
    var s := a + p + b;
    if |a| == 0 {
      assert s == p + b;
      assert s[..|p|] == p;
      assert s[|p|..] == b;
    } else {
      assert !OccursAt(s, p, 0);
      assert s[1..] == a[1..] + p + b;
      forall i: nat | i < |a[1..]| ensures !OccursAt(a[1..] + p + b, p, i) {
        assert !OccursAt(s, p, i + 1);
        assert s[i + 1..i + 1 + |p|] == (a[1..] + p + b)[i..i + |p|];
      }
      ReplaceAllLeftmost(a[1..], p, b, r);
      assert [a[0]] + (a[1..] + r + ReplaceAll(b, p, r)) == a + r + ReplaceAll(b, p, r);
    }
  }

  /** Array.prototype.join */
  function Join(xs: seq<string>, sep: string): string {
    if |xs| == 0 then ""
    else if |xs| == 1 then xs[0]
    else xs[0] + sep + Join(xs[1..], sep)
  }

  /** The characters String.prototype.trim removes: ECMAScript WhiteSpace and LineTerminator. */
  predicate IsSpace(c: char) {
    c == ' ' || c == '\t' || c == '\n' || c == '\r'
    || c as int == 0x0B || c as int == 0x0C || c as int == 0xA0 || c as int == 0xFEFF
    || c as int == 0x1680 || 0x2000 <= c as int <= 0x200A || c as int == 0x2028
    || c as int == 0x2029 || c as int == 0x202F || c as int == 0x205F || c as int == 0x3000
  }

  /** Drops leading white space: the result is the suffix of `s` after its longest
      all-space prefix. */
  function TrimStart(s: string): (r: string)
    ensures |r| <= |s| && r == s[|s| - |r|..]
    ensures forall i :: 0 <= i < |s| - |r| ==> IsSpace(s[i])
    ensures |r| > 0 ==> !IsSpace(r[0])
    decreases |s|
  {
    if |s| > 0 && IsSpace(s[0]) then TrimStart(s[1..]) else s
  }

  /** Drops trailing white space: the result is the prefix of `s` before its longest
      all-space suffix. */
  function TrimEnd(s: string): (r: string)
    ensures |r| <= |s| && r == s[..|r|]
    ensures forall i :: |r| <= i < |s| ==> IsSpace(s[i])
    ensures |r| > 0 ==> !IsSpace(r[|r| - 1])
    decreases |s|
  {
    if |s| > 0 && IsSpace(s[|s| - 1]) then TrimEnd(s[..|s| - 1]) else s
  }

  /** String.prototype.trim */
  function Trim(s: string): string {
    TrimEnd(TrimStart(s))
  }

  /** A string that neither starts nor ends with white space is its own trim. */
  lemma TrimUnchanged(s: string)
    requires |s| > 0 && !IsSpace(s[0]) && !IsSpace(s[|s| - 1])
    ensures Trim(s) == s
  {
  }

  /** Words joined by single spaces around a middle part are their own trim when the
      first word does not start, and the last does not end, with white space. */
  lemma TrimSpaced(a: string, m: string, b: string)
    requires |a| > 0 && !IsSpace(a[0]) && |b| > 0 && !IsSpace(b[|b| - 1])
    ensures Trim(a + " " + m + " " + b) == a + " " + m + " " + b
  {
    var s := a + " " + m + " " + b;
    assert s[0] == a[0];
    assert s[|s| - 1] == b[|b| - 1];
    TrimUnchanged(s);
  }

  /** Trailing white space after a string that does not end with it is removed by trim. */
  lemma {:induction false} TrimTrailingSpaces(s: string, t: string)
    requires |s| > 0 && !IsSpace(s[0]) && !IsSpace(s[|s| - 1])
    requires forall i :: 0 <= i < |t| ==> IsSpace(t[i])
    ensures Trim(s + t) == s
  {
    var u := s + t;
    assert TrimStart(u) == u;
    var r := TrimEnd(u);
    assert u[|s| - 1] == s[|s| - 1];
    assert |r| >= |s|;
    assert forall i :: |s| <= i < |u| ==> u[i] == t[i - |s|];
    assert |r| == |s|;
    assert r == u[..|s|] == s;
  }

  /** Appending the same suffix to two different strings keeps them different. */
  lemma AppendCancel(a: string, b: string, s: string)
    ensures a + s == b + s ==> a == b
  {
    if a + s == b + s {
      assert a == (a + s)[..|a|];
      assert b == (b + s)[..|b|];
    }
  }

  /** path.join of two segments. Only the separator is modelled, not normalisation. */
  function PathJoin(a: string, b: string): string {
    a + "/" + b
  }

  /** The part of `s` after its last '/' (all of `s` when it has none). */
  function AfterLastSlash(s: string): (r: string)
    ensures '/' !in r
    ensures EndsWith(s, r)
    ensures |r| < |s| ==> s[|s| - |r| - 1] == '/'
    decreases |s|
  {
    if |s| == 0 then s
    else if s[|s| - 1] == '/' then []
    else AfterLastSlash(s[..|s| - 1]) + [s[|s| - 1]]
  }

  /** `s` without its trailing '/' characters. */
  function StripTrailingSlashes(s: string): (r: string)
    ensures StartsWith(s, r)
    ensures forall i :: |r| <= i < |s| ==> s[i] == '/'
    ensures |r| > 0 ==> r[|r| - 1] != '/'
    decreases |s|
  {
    if |s| > 0 && s[|s| - 1] == '/' then StripTrailingSlashes(s[..|s| - 1]) else s
  }

  /** path.basename: the last segment of a '/'-separated path, trailing separators ignored. */
  function Basename(path: string): string {
    AfterLastSlash(StripTrailingSlashes(path))
  }
}
