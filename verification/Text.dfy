/** Substring search, as Go's `strings` package defines it. */
module Text {

  predicate OccursAt(s: string, p: string, i: int) {
    0 <= i <= |s| && p <= s[i..]
  }

  predicate Occurs(s: string, p: string) {
    exists i | 0 <= i <= |s| :: OccursAt(s, p, i)
  }

  lemma OccursAtShift(s: string, p: string, k: nat, i: int)
    requires k <= |s| && 0 <= i
    ensures OccursAt(s[k..], p, i) <==> OccursAt(s, p, k + i)
  {
    if k + i <= |s| {
      assert s[k..][i..] == s[k + i..];
    }
  }

  /** One differing character rules an occurrence out. */
  lemma DiffersAt(s: string, p: string, i: int, d: nat)
    requires d < |p|
    requires 0 <= i + d < |s| ==> s[i + d] != p[d]
    ensures !OccursAt(s, p, i)
  {
    if 0 <= i <= |s| - |p| {
      assert s[i..][d] == s[i + d];
    }
  }

  lemma OccursSplit(s: string, p: string, i: int)
    requires OccursAt(s, p, i)
    ensures i + |p| <= |s| && s[i..] == p + s[i + |p|..] && s == s[..i] + p + s[i + |p|..]
  {
    assert s[i..] == p + s[i..][|p|..];
  }

  lemma OccursAfter(before: string, p: string, after: string)
    ensures OccursAt(before + p + after, p, |before|)
  {
    assert (before + p + after)[|before|..] == p + after;
  }

  lemma PrefixCons(s: string, p: string)
    requires s != "" && p != ""
    ensures p <= s <==> p[0] == s[0] && p[1..] <= s[1..]
  {
    assert p == [p[0]] + p[1..] && s == [s[0]] + s[1..];
  }

  /** `strings.Index`: the leftmost occurrence, or -1. */
  function Index(s: string, p: string): (i: int)
    ensures i == -1 <==> !Occurs(s, p)
    ensures i != -1 ==> OccursAt(s, p, i)
    ensures forall j | 0 <= j < i :: !OccursAt(s, p, j)
  {
    if p <= s then assert OccursAt(s, p, 0); 0
    else if s == "" then -1
    else
      var k := Index(s[1..], p);
      assert forall j | 0 < j :: OccursAt(s, p, j) <==> OccursAt(s[1..], p, j - 1) by {
        forall j | 0 < j ensures OccursAt(s, p, j) <==> OccursAt(s[1..], p, j - 1) {
          OccursAtShift(s, p, 1, j - 1);
        }
      }
      assert forall j | 0 <= j :: OccursAt(s[1..], p, j) <==> OccursAt(s, p, j + 1);
      if k == -1 then -1 else 1 + k
  }
}
