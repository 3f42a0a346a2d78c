/** String helpers the job-radar code relies on: `String.prototype.toLowerCase`,
    `String.prototype.includes` and the `<` ordering of strings. */
module Text {

  /** Lower-cases one ASCII letter; every other character is left alone. */
  function Lower(c: char): (d: char)
    ensures !('A' <= d <= 'Z')
    ensures 'A' <= c <= 'Z' || d == c
  {
    if 'A' <= c <= 'Z' then (c as int + 32) as char else c
  }

  /** `s.toLowerCase()`, character by character. */
  function ToLower(s: string): (r: string)
    ensures |r| == |s|
    ensures forall i :: 0 <= i < |s| ==> r[i] == Lower(s[i])
  {
    if s == [] then [] else [Lower(s[0])] + ToLower(s[1..])
  }

  /** Lower-casing commutes with concatenation, so lower-casing a template string
      is lower-casing each of its parts. */
  lemma ToLowerAppend(a: string, b: string)
    ensures ToLower(a + b) == ToLower(a) + ToLower(b)
  {
  }

  /** `s.startsWith(p)`. */
  predicate IsPrefix(p: string, s: string)
  {
    |p| == 0 || (|s| > 0 && p[0] == s[0] && IsPrefix(p[1..], s[1..]))
  }

  /** `text.includes(pat)`: some suffix of `text` starts with `pat`. */
  predicate Contains(text: string, pat: string)
    decreases |text|
  {
    IsPrefix(pat, text) || (|text| > 0 && Contains(text[1..], pat))
  }

  lemma {:induction false} IsPrefixIff(p: string, s: string)
    ensures IsPrefix(p, s) <==> |p| <= |s| && s[..|p|] == p
  {
    if |p| > 0 && |s| > 0 {
      IsPrefixIff(p[1..], s[1..]);
      if p[0] == s[0] && |p| <= |s| {
        assert s[..|p|] == [s[0]] + s[1..][..|p| - 1];
        assert p == [p[0]] + p[1..];
      }
    }
  }

  /** `pat` occurs in `text` starting at index `i`. */
  predicate OccursAt(text: string, pat: string, i: int)
  {
    0 <= i && i + |pat| <= |text| && text[i..i + |pat|] == pat
  }

  /** `pat` occurs at some position of `text`. */
  ghost predicate OccursSomewhere(text: string, pat: string)
  {
    exists i :: OccursAt(text, pat, i)
  }

  /** `Contains` agrees with the index-based reading of `includes`: the pattern
      occurs at some position of the text. */
  lemma {:induction false} ContainsAt(text: string, pat: string)
    ensures Contains(text, pat) <==> OccursSomewhere(text, pat)
  {
    IsPrefixIff(pat, text);
    if |text| > 0 {
      ContainsAt(text[1..], pat);
      if Contains(text, pat) {
        if IsPrefix(pat, text) {
          assert OccursAt(text, pat, 0);
        } else {
          var i :| OccursAt(text[1..], pat, i);
          assert text[1..][i..i + |pat|] == text[i + 1..i + 1 + |pat|];
          assert OccursAt(text, pat, i + 1);
        }
      } else {
        forall i | OccursAt(text, pat, i)
          ensures false
        {
          if i > 0 {
            assert OccursAt(text[1..], pat, i - 1);
          }
        }
      }
    } else {
      if |pat| == 0 {
        assert text[0..0] == pat;
        assert OccursAt(text, pat, 0);
      }
    }
  }

  /** Whoever contains `p + q` contains `p`. */
  lemma ContainsExtended(text: string, p: string, q: string)
    requires Contains(text, p + q)
    ensures Contains(text, p)
  {
    ContainsAt(text, p + q);
    ContainsAt(text, p);
    var i :| OccursAt(text, p + q, i);
    assert text[i..i + |p|] == (p + q)[..|p|] == p;
    assert OccursAt(text, p, i);
  }

  /** JavaScript's `a < b` on strings: lexicographic on characters, a proper
      prefix being smaller. */
  predicate LexLess(a: string, b: string)
  {
    if |a| == 0 then |b| > 0
    else if |b| == 0 then false
    else if a[0] < b[0] then true
    else if b[0] < a[0] then false
    else LexLess(a[1..], b[1..])
  }

  lemma {:induction false} LexLessIrreflexive(a: string)
    ensures !LexLess(a, a)
  {
    if |a| > 0 { LexLessIrreflexive(a[1..]); }
  }

  lemma {:induction false} LexLessAsymmetric(a: string, b: string)
    ensures LexLess(a, b) ==> !LexLess(b, a)
  {
    if |a| > 0 && |b| > 0 && a[0] == b[0] { LexLessAsymmetric(a[1..], b[1..]); }
  }

  lemma {:induction false} LexLessTransitive(a: string, b: string, c: string)
    ensures LexLess(a, b) && LexLess(b, c) ==> LexLess(a, c)
  {
    if |a| > 0 && |b| > 0 && |c| > 0 && a[0] == b[0] == c[0] {
      LexLessTransitive(a[1..], b[1..], c[1..]);
    }
  }

  /** Two different strings are always ordered one way or the other. */
  lemma {:induction false} LexLessTotal(a: string, b: string)
    ensures a == b || LexLess(a, b) || LexLess(b, a)
  {
    if |a| > 0 && |b| > 0 && a[0] == b[0] {
      LexLessTotal(a[1..], b[1..]);
      if a[1..] == b[1..] {
        assert a == [a[0]] + a[1..] && b == [b[0]] + b[1..];
      }
    }
  }
}
