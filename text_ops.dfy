/** String surgery: `s.split(pat).join(rep)`, the replace-all idiom the translator uses for
    its final quote fix-up, and the facts needed to reason about it piece by piece. */
module TextOps {

  predicate StartsWith(s: string, pat: string) {
    |pat| <= |s| && s[..|pat|] == pat
  }

  /** `s.split(pat).join(rep)` for a non-empty pattern: scanning left to right, every
      occurrence of pat that does not overlap an earlier replaced one becomes rep. */
  function ReplaceAll(s: string, pat: string, rep: string): string
    requires pat != []
    decreases |s|
  {
    if s == [] then []
    else if StartsWith(s, pat) then rep + ReplaceAll(s[|pat|..], pat, rep)
    else [s[0]] + ReplaceAll(s[1..], pat, rep)
  }

  /** No occurrence of pat starts inside a and ends inside b: every suffix of a shorter
      than pat, followed by b, does not begin with pat. */
  predicate NoStraddle(a: string, b: string, pat: string) {
    forall j :: 0 <= j < |a| && |a| - j < |pat| ==> !StartsWith(a[j..] + b, pat)
  }

  /** Dropping a prefix of a keeps the seam free of straddling occurrences. */
  lemma NoStraddleSuffix(a: string, b: string, pat: string, k: nat)
    requires k <= |a| && NoStraddle(a, b, pat)
    ensures NoStraddle(a[k..], b, pat)
  {
    forall j | 0 <= j < |a[k..]| && |a[k..]| - j < |pat|
      ensures !StartsWith(a[k..][j..] + b, pat)
    {
      assert a[k..][j..] == a[k + j..];
    }
  }

  /** Replacing in a concatenation replaces in each part, when no occurrence straddles the seam. */
  lemma {:induction false} ReplaceAllConcat(a: string, b: string, pat: string, rep: string)
    requires pat != []
    requires NoStraddle(a, b, pat)
    ensures ReplaceAll(a + b, pat, rep) == ReplaceAll(a, pat, rep) + ReplaceAll(b, pat, rep)
    decreases |a|
  {
    if a == [] {
      assert a + b == b;
    } else if StartsWith(a + b, pat) {
      assert a[0..] == a;
      assert |a| >= |pat|;
      assert StartsWith(a, pat) by { assert (a + b)[..|pat|] == a[..|pat|]; }
      assert (a + b)[|pat|..] == a[|pat|..] + b;
      NoStraddleSuffix(a, b, pat, |pat|);
      ReplaceAllConcat(a[|pat|..], b, pat, rep);
    } else {
      if |a| >= |pat| {
        assert (a + b)[..|pat|] == a[..|pat|];
      }
      assert !StartsWith(a, pat);
      assert (a + b)[1..] == a[1..] + b;
      NoStraddleSuffix(a, b, pat, 1);
      ReplaceAllConcat(a[1..], b, pat, rep);
    }
  }

  /** pat occurs in s, starting at some position. */
  predicate Occurs(s: string, pat: string) {
    exists i :: 0 <= i <= |s| && StartsWith(s[i..], pat)
  }

  /** A text with no occurrence of the pattern is left alone. */
  lemma {:induction false} ReplaceAllAbsent(s: string, pat: string, rep: string)
    requires pat != []
    requires !Occurs(s, pat)
    ensures ReplaceAll(s, pat, rep) == s
    decreases |s|
  {
    if s != [] {
      assert s[0..] == s;
      assert !StartsWith(s, pat);
      assert !Occurs(s[1..], pat) by {
        forall i | 0 <= i <= |s[1..]| ensures !StartsWith(s[1..][i..], pat) {
          assert s[1..][i..] == s[i + 1..];
        }
      }
      ReplaceAllAbsent(s[1..], pat, rep);
    }
  }

  /** In particular, a text without the pattern's first character is left alone. */
  lemma ReplaceAllNoFirstChar(s: string, pat: string, rep: string)
    requires pat != []
    requires forall i :: 0 <= i < |s| ==> s[i] != pat[0]
    ensures ReplaceAll(s, pat, rep) == s
  {
    forall i | 0 <= i <= |s| ensures !StartsWith(s[i..], pat) {
      if i < |s| && |pat| <= |s[i..]| {
        assert s[i..][..|pat|][0] == s[i];
      }
    }
    ReplaceAllAbsent(s, pat, rep);
  }

  /** A text that starts with the pattern has its first occurrence replaced. */
  lemma ReplaceAllAtStart(pat: string, rest: string, rep: string)
    requires pat != []
    ensures ReplaceAll(pat + rest, pat, rep) == rep + ReplaceAll(rest, pat, rep)
  {
    assert StartsWith(pat + rest, pat) by { assert (pat + rest)[..|pat|] == pat; }
    assert (pat + rest)[|pat|..] == rest;
  }

  /** A text shorter than the pattern is left alone. */
  lemma {:induction false} ReplaceAllShort(s: string, pat: string, rep: string)
    requires pat != [] && |s| < |pat|
    ensures ReplaceAll(s, pat, rep) == s
    decreases |s|
  {
    if s != [] {
      ReplaceAllShort(s[1..], pat, rep);
    }
  }

  /** The pieces of a text laid end to end, in order. */
  function Concat(parts: seq<string>): string {
    if parts == [] then "" else Concat(parts[..|parts| - 1]) + parts[|parts| - 1]
  }

  lemma {:induction false} ConcatAppend(a: seq<string>, b: seq<string>)
    ensures Concat(a + b) == Concat(a) + Concat(b)
    decreases |b|
  {
    if b == [] {
      assert a + b == a;
    } else {
      var n := |b| - 1;
      assert (a + b)[..|a + b| - 1] == a + b[..n];
      assert (a + b)[|a + b| - 1] == b[n];
      ConcatAppend(a, b[..n]);
    }
  }

  lemma ConcatOne(p: string)
    ensures Concat([p]) == p
  {
    assert [p][..0] == [];
  }
}
