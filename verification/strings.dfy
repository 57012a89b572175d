/** The .NET string operations the generator uses (`StartsWith`, `EndsWith`, `Contains`, `Replace`,
    `string.Join`, `ToLowerInvariant`) over `string = seq<char>`, all compared char by char
    (ordinally). The source asks for `InvariantCulture` comparisons in `StartsWith`/`EndsWith`, which
    are linguistic; the ordinal reading agrees with them on the ASCII names and namespaces they are
    applied to. Case folding is ASCII-only. */
module Strings {
  import opened Seqs

  predicate StartsWith(s: string, prefix: string) {
    |prefix| <= |s| && s[..|prefix|] == prefix
  }

  predicate EndsWith(s: string, suffix: string) {
    |suffix| <= |s| && s[|s| - |suffix|..] == suffix
  }

  /** `p` occurs in `s` starting at index `i`. */
  predicate IsSubstringAt(s: string, p: string, i: int) {
    0 <= i && i + |p| <= |s| && s[i..i + |p|] == p
  }

  /** Ordinal `String.Contains`. */
  predicate Contains(s: string, p: string) {
    exists i | 0 <= i <= |s| - |p| :: IsSubstringAt(s, p, i)
  }

  lemma ContainsShift(s: string, p: string, i: int)
    requires IsSubstringAt(s, p, i)
    ensures Contains(s, p)
  {
  }

  /** An occurrence inside the middle part of a concatenation is an occurrence of the whole. */
  lemma ContainsInContext(a: string, m: string, b: string, p: string)
    requires Contains(m, p)
    ensures Contains(a + m + b, p)
  {
    var i :| 0 <= i <= |m| - |p| && IsSubstringAt(m, p, i);
    assert (a + m + b)[|a| + i..|a| + i + |p|] == m[i..i + |p|];
    assert IsSubstringAt(a + m + b, p, |a| + i);
  }

  /** Ordinal `String.Replace(pat, rep)`: every non-overlapping occurrence of `pat`, found left to
      right, is replaced by `rep`. .NET throws for an empty `pat`, hence the precondition. */
  function Replace(s: string, pat: string, rep: string): string
    requires |pat| > 0
    decreases |s|
  {
    if |s| < |pat| then s
    else if s[..|pat|] == pat then rep + Replace(s[|pat|..], pat, rep)
    else [s[0]] + Replace(s[1..], pat, rep)
  }

  /** Replacing a pattern that does not occur changes nothing. */
  lemma {:induction false} ReplaceAbsent(s: string, pat: string, rep: string)
    requires |pat| > 0
    requires !Contains(s, pat)
    ensures Replace(s, pat, rep) == s
    decreases |s|
  {
    if |s| >= |pat| {
      assert !IsSubstringAt(s, pat, 0);
      assert s[..|pat|] != pat;
      forall i | 0 <= i <= |s| - 1 - |pat|
        ensures !IsSubstringAt(s[1..], pat, i)
      {
        assert s[1..][i..i + |pat|] == s[i + 1..i + 1 + |pat|];
        assert !IsSubstringAt(s, pat, i + 1);
      }
      ReplaceAbsent(s[1..], pat, rep);
      assert [s[0]] + s[1..] == s;
    }
  }

  /** When no occurrence of `pat` starts before index `k`, the first `k` characters are copied. */
  lemma {:induction false} ReplaceSkip(s: string, pat: string, rep: string, k: int)
    requires |pat| > 0 && 0 <= k <= |s|
    requires forall i :: 0 <= i < k ==> !IsSubstringAt(s, pat, i)
    ensures Replace(s, pat, rep) == s[..k] + Replace(s[k..], pat, rep)
    decreases k
  {
    if k == 0 {
      assert s[..0] + s[0..] == s;
    } else if |s| < |pat| {
      assert Replace(s[k..], pat, rep) == s[k..];
      assert s[..k] + s[k..] == s;
    } else {
      assert !IsSubstringAt(s, pat, 0);
      assert s[..|pat|] != pat;
      forall i | 0 <= i < k - 1
        ensures !IsSubstringAt(s[1..], pat, i)
      {
        assert !IsSubstringAt(s, pat, i + 1);
        if i + |pat| <= |s| - 1 {
          assert s[1..][i..i + |pat|] == s[i + 1..i + 1 + |pat|];
        }
      }
      ReplaceSkip(s[1..], pat, rep, k - 1);
      assert s[1..][..k - 1] == s[1..k];
      assert s[1..][k - 1..] == s[k..];
      assert [s[0]] + s[1..k] == s[..k];
    }
  }

  /** `pat` has no proper prefix that is also a suffix, so two occurrences can never overlap. */
  predicate BorderFree(pat: string) {
    forall k :: 0 < k < |pat| ==> pat[k..] != pat[..|pat| - k]
  }

  /** A pattern whose first character occurs nowhere else is border-free. */
  lemma UniqueHeadBorderFree(pat: string)
    requires |pat| > 0
    requires forall k :: 0 < k < |pat| ==> pat[k] != pat[0]
    ensures BorderFree(pat)
  {
    forall k | 0 < k < |pat|
      ensures pat[k..] != pat[..|pat| - k]
    {
      assert pat[k..][0] == pat[k];
      assert pat[..|pat| - k][0] == pat[0];
    }
  }

  /** `string.Join(sep, parts)`. */
  function Join(sep: string, parts: seq<string>): string
  {
    if |parts| == 0 then ""
    else if |parts| == 1 then parts[0]
    else parts[0] + sep + Join(sep, parts[1..])
  }

  /** No occurrence of a border-free `pat` starts inside a pattern-free `a` in `a + pat + rest`. */
  lemma NoMatchInsidePrefix(a: string, pat: string, rest: string)
    requires |pat| > 0 && BorderFree(pat) && !Contains(a, pat)
    ensures forall i :: 0 <= i < |a| ==> !IsSubstringAt(a + pat + rest, pat, i)
  {
    var s := a + pat + rest;
    forall i | 0 <= i < |a|
      ensures !IsSubstringAt(s, pat, i)
    {
      if i + |pat| <= |a| {
        assert s[i..i + |pat|] == a[i..i + |pat|];
        assert !IsSubstringAt(a, pat, i);
      } else if i + |pat| <= |s| {
        var l := |a| - i;
        assert s[i..i + |pat|][l..] == pat[..|pat| - l];
        assert pat[l..] != pat[..|pat| - l];
      }
    }
  }

  /** Replacing a border-free pattern in text built by joining pattern-free parts with that
      pattern swaps exactly the separators: `Replace(Join(pat, ps), pat, rep) == Join(rep, ps)`. */
  lemma {:induction false} ReplaceJoin(pat: string, rep: string, parts: seq<string>)
    requires |pat| > 0 && BorderFree(pat)
    requires forall i :: 0 <= i < |parts| ==> !Contains(parts[i], pat)
    ensures Replace(Join(pat, parts), pat, rep) == Join(rep, parts)
  {
    if |parts| == 0 {
    } else if |parts| == 1 {
      ReplaceAbsent(parts[0], pat, rep);
    } else {
      var a, rest := parts[0], Join(pat, parts[1..]);
      var s := a + pat + rest;
      assert Join(pat, parts) == s;
      NoMatchInsidePrefix(a, pat, rest);
      ReplaceSkip(s, pat, rep, |a|);
      assert s[..|a|] == a;
      assert s[|a|..] == pat + rest;
      assert (pat + rest)[..|pat|] == pat;
      assert (pat + rest)[|pat|..] == rest;
      ReplaceJoin(pat, rep, parts[1..]);
    }
  }

  /** `s` without any occurrence of the character `c`. */
  function Without(s: string, c: char): (r: string)
    ensures c !in r
    ensures forall x :: x in r <==> x in s && x != c
  {
    if |s| == 0 then ""
    else if s[0] == c then Without(s[1..], c)
    else [s[0]] + Without(s[1..], c)
  }

  /** `s.Replace("c", "")` deletes exactly the occurrences of `c` and keeps every other character
      in order. */
  lemma {:induction false} ReplaceCharIsWithout(s: string, c: char)
    ensures Replace(s, [c], "") == Without(s, c)
  {
    if |s| > 0 {
      ReplaceCharIsWithout(s[1..], c);
      if s[..1] == [c] {
        assert s[0] == c;
        assert s[1..] == s[|[c]|..];
      } else {
        assert s[0] != c;
      }
    }
  }

  /** `char.ToLowerInvariant` restricted to ASCII letters. */
  function LowerChar(c: char): char {
    if 'A' <= c <= 'Z' then (c as int + 32) as char else c
  }

  /** `s.Substring(0, 1).ToLowerInvariant() + s.Substring(1)`; the empty string stays empty. */
  function LowerFirst(s: string): (r: string)
    ensures |r| == |s|
    ensures |s| > 0 ==> r[0] == LowerChar(s[0]) && r[1..] == s[1..]
  {
    if |s| == 0 then s else [LowerChar(s[0])] + s[1..]
  }

  function LowerAll(s: string): (r: string)
    ensures |r| == |s|
    ensures forall i :: 0 <= i < |s| ==> r[i] == LowerChar(s[i])
  {
    if |s| == 0 then "" else [LowerChar(s[0])] + LowerAll(s[1..])
  }

  /** `EndsWith(suffix, StringComparison.InvariantCultureIgnoreCase)`, with ASCII case folding. */
  predicate EndsWithIgnoreCase(s: string, suffix: string) {
    |suffix| <= |s| && LowerAll(s[|s| - |suffix|..]) == LowerAll(suffix)
  }

  /** Text found in one part is found in the joined text. */
  lemma {:induction false} ContainsInJoin(sep: string, parts: seq<string>, k: int, p: string)
    requires 0 <= k < |parts| && Contains(parts[k], p)
    ensures Contains(Join(sep, parts), p)
  {
    if |parts| == 1 {
    } else if k == 0 {
      ContainsInContext("", parts[0], sep + Join(sep, parts[1..]), p);
      assert "" + parts[0] + (sep + Join(sep, parts[1..])) == Join(sep, parts);
    } else {
      ContainsInJoin(sep, parts[1..], k - 1, p);
      ContainsInContext(parts[0] + sep, Join(sep, parts[1..]), "", p);
      assert parts[0] + sep + Join(sep, parts[1..]) + "" == Join(sep, parts);
    }
  }

  /** A name written once between fixed texts can be read back. */
  lemma EnclosedInjective(pre: string, post: string, a: string, b: string)
    requires pre + a + post == pre + b + post
    ensures a == b
  {
    assert |a| == |b|;
    assert a == (pre + a + post)[|pre|..|pre| + |a|];
    assert b == (pre + b + post)[|pre|..|pre| + |b|];
  }

  /** A name written twice between fixed texts can be read back. */
  lemma TwiceEnclosedInjective(pre: string, mid: string, post: string, a: string, b: string)
    requires pre + a + mid + a + post == pre + b + mid + b + post
    ensures a == b
  {
    assert |a| == |b|;
    assert a == (pre + a + mid + a + post)[|pre|..|pre| + |a|];
    assert b == (pre + b + mid + b + post)[|pre|..|pre| + |b|];
  }

  /** Replacing a pattern by itself changes nothing. */
  lemma {:induction false} ReplaceIdentity(s: string, pat: string)
    requires |pat| > 0
    ensures Replace(s, pat, pat) == s
    decreases |s|
  {
    if |s| >= |pat| {
      if s[..|pat|] == pat {
        ReplaceIdentity(s[|pat|..], pat);
        assert pat + s[|pat|..] == s;
      } else {
        ReplaceIdentity(s[1..], pat);
        assert [s[0]] + s[1..] == s;
      }
    }
  }
}
