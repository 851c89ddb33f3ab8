/** Rewriting an end-event text into the start-event text it closes. */
module Rewriting {
  import opened Text

  type Rewrite = string -> string

  /** `ReplaceAllString` for a pattern without metacharacters: leftmost, non-overlapping. */
  function ReplaceAll(s: string, p: string, r: string): string
    requires p != ""
  {
    if s == "" then ""
    else if p <= s then r + ReplaceAll(s[|p|..], p, r)
    else [s[0]] + ReplaceAll(s[1..], p, r)
  }

  predicate Diverge(a: string, b: string) {
    exists d | 0 <= d < |a| :: d < |b| && a[d] != b[d]
  }

  /** A rule `\[tag\] endTail` -> `[tag] startTail`. */
  datatype LiteralRule = LiteralRule(tag: string, endTail: string, startTail: string) {
    function Head(): string { "[" + tag + "] " }
    function Pattern(): string { Head() + endTail }
    function Replacement(): string { Head() + startTail }

    predicate WellFormed() {
      && '[' !in tag && '[' !in endTail && '[' !in startTail
      && !Occurs(tag, "] ")
      && startTail != ""
      && Diverge(endTail, startTail)
    }

    function Apply(s: string): string { ReplaceAll(s, Pattern(), Replacement()) }
  }

  const MALWARE_REMOVER := LiteralRule("Malware Remover", "Scan completed.", "Started scanning.")
  const FIRMWARE_DOWNLOAD :=
    LiteralRule("Firmware Update", "Started updating firmware", "Started downloading firmware")
  const FIRMWARE_UPDATE := LiteralRule("Firmware Update", "Updated system.", "Started updating firmware.")
  const SECURITY_COUNSELOR := LiteralRule("SecurityCounselor", "Finished", "Started")

  const LITERAL_RULES := [MALWARE_REMOVER, FIRMWARE_DOWNLOAD, FIRMWARE_UPDATE, SECURITY_COUNSELOR]

  /** The rule table in source order; `captures` stands for the six rules with capture groups. */
  function Table(captures: seq<Rewrite>): seq<Rewrite>
    requires |captures| == 6
  {
    [s => MALWARE_REMOVER.Apply(s), captures[0], s => FIRMWARE_DOWNLOAD.Apply(s), s => FIRMWARE_UPDATE.Apply(s)]
    + captures[1..] + [s => SECURITY_COUNSELOR.Apply(s)]
  }

  lemma TableHoldsLiterals(captures: seq<Rewrite>, s: string)
    requires |captures| == 6
    ensures var t := Table(captures);
            && |t| == 10
            && t[0](s) == MALWARE_REMOVER.Apply(s) && t[2](s) == FIRMWARE_DOWNLOAD.Apply(s)
            && t[3](s) == FIRMWARE_UPDATE.Apply(s) && t[9](s) == SECURITY_COUNSELOR.Apply(s)
            && t[1] == captures[0] && t[4..9] == captures[1..]
  {
  }

  lemma WellFormedBy(rule: LiteralRule, d: nat)
    requires '[' !in rule.tag && ']' !in rule.tag && '[' !in rule.endTail && '[' !in rule.startTail
    requires d < |rule.endTail| && d < |rule.startTail| && rule.endTail[d] != rule.startTail[d]
    ensures rule.WellFormed()
  {
    forall i: int ensures !OccursAt(rule.tag, "] ", i) {
      DiffersAt(rule.tag, "] ", i, 0);
    }
  }

  // One literal at a time, to keep each proof short
  lemma MalwareTag() ensures '[' !in "Malware Remover" && ']' !in "Malware Remover" {}
  lemma ScanCompleted() ensures '[' !in "Scan completed." {}
  lemma StartedScanning() ensures '[' !in "Started scanning." {}
  lemma FirmwareTag() ensures '[' !in "Firmware Update" && ']' !in "Firmware Update" {}
  lemma StartedUpdating() ensures '[' !in "Started updating firmware" {}
  lemma StartedDownloading() ensures '[' !in "Started downloading firmware" {}
  lemma UpdatedSystem() ensures '[' !in "Updated system." {}
  lemma StartedUpdatingStop() ensures '[' !in "Started updating firmware." {}
  lemma CounselorTag() ensures '[' !in "SecurityCounselor" && ']' !in "SecurityCounselor" {}
  lemma FinishedStarted() ensures '[' !in "Finished" && '[' !in "Started" {}

  lemma MalwareRemoverWellFormed()
    ensures MALWARE_REMOVER.WellFormed()
  {
    MalwareTag(); ScanCompleted(); StartedScanning();
    WellFormedBy(MALWARE_REMOVER, 1);
  }

  lemma FirmwareDownloadWellFormed()
    ensures FIRMWARE_DOWNLOAD.WellFormed()
  {
    FirmwareTag(); StartedUpdating(); StartedDownloading();
    WellFormedBy(FIRMWARE_DOWNLOAD, 8);
  }

  lemma FirmwareUpdateWellFormed()
    ensures FIRMWARE_UPDATE.WellFormed()
  {
    FirmwareTag(); UpdatedSystem(); StartedUpdatingStop();
    WellFormedBy(FIRMWARE_UPDATE, 0);
  }

  lemma SecurityCounselorWellFormed()
    ensures SECURITY_COUNSELOR.WellFormed()
  {
    CounselorTag(); FinishedStarted();
    WellFormedBy(SECURITY_COUNSELOR, 0);
  }

  lemma LiteralRulesWellFormed(rule: LiteralRule)
    requires rule in LITERAL_RULES
    ensures rule.WellFormed()
  {
    MalwareRemoverWellFormed();
    FirmwareDownloadWellFormed();
    FirmwareUpdateWellFormed();
    SecurityCounselorWellFormed();
  }

  // ----- What a bracketed pattern buys

  /** Both texts open with their only '[' and they disagree somewhere. */
  predicate Bracketed(p: string, r: string) {
    && p != "" && r != "" && p[0] == '[' == r[0]
    && '[' !in p[1..] && '[' !in r[1..]
    && Diverge(p, r)
  }

  lemma WellFormedIsBracketed(rule: LiteralRule)
    requires rule.WellFormed()
    ensures Bracketed(rule.Pattern(), rule.Replacement())
  {
    var h, p, r := rule.Head(), rule.Pattern(), rule.Replacement();
    var d :| 0 <= d < |rule.endTail| && d < |rule.startTail| && rule.endTail[d] != rule.startTail[d];
    assert p[|h| + d] == rule.endTail[d] && r[|h| + d] == rule.startTail[d];
    assert p[1..] == rule.tag + "] " + rule.endTail;
    assert r[1..] == rule.tag + "] " + rule.startTail;
  }

  /** The scan copies everything before the first occurrence. */
  lemma {:induction false} CopiesUntilMatch(s: string, p: string, r: string, k: nat)
    requires p != "" && k <= |s|
    requires forall i | 0 <= i < k :: !OccursAt(s, p, i)
    ensures ReplaceAll(s, p, r) == s[..k] + ReplaceAll(s[k..], p, r)
  {
    if k == 0 {
      assert s[..0] + s == s && s[0..] == s;
    } else {
      assert s[0..] == s && !OccursAt(s, p, 0);
      forall i | 0 <= i < k - 1 ensures !OccursAt(s[1..], p, i) {
        OccursAtShift(s, p, 1, i);
      }
      CopiesUntilMatch(s[1..], p, r, k - 1);
      assert s[1..][k - 1..] == s[k..];
      assert [s[0]] + s[1..][..k - 1] == s[..k];
    }
  }

  lemma RewritesPrefix(p: string, r: string, after: string)
    requires p != ""
    ensures ReplaceAll(p + after, p, r) == r + ReplaceAll(after, p, r)
  {
    assert (p + after)[|p|..] == after;
  }

  lemma RewritesFirst(before: string, p: string, r: string, after: string)
    requires p != ""
    requires forall j | 0 <= j < |before| :: !OccursAt(before + p + after, p, j)
    ensures ReplaceAll(before + p + after, p, r) == before + r + ReplaceAll(after, p, r)
  {
    var s, k := before + p + after, |before|;
    CopiesUntilMatch(s, p, r, k);
    assert s[..k] == before && s[k..] == p + after;
    RewritesPrefix(p, r, after);
  }

  /** Rewriting neither adds nor removes a bracket-free prefix. */
  lemma {:induction false} PlainPrefix(s: string, p: string, r: string, q: string)
    requires Bracketed(p, r) && '[' !in q
    ensures q <= ReplaceAll(s, p, r) <==> q <= s
  {
    var o := ReplaceAll(s, p, r);
    if q == "" || s == "" {
    } else if p <= s {
      assert s[0] == '[' && o[0] == r[0] == '[' && q[0] != '[';
      PrefixCons(s, q);
      PrefixCons(o, q);
    } else {
      assert o[0] == s[0] && o[1..] == ReplaceAll(s[1..], p, r);
      PlainPrefix(s[1..], p, r, q[1..]);
      PrefixCons(s, q);
      PrefixCons(o, q);
    }
  }

  /** A copied character starts no occurrence, since what follows it would have matched before. */
  lemma NothingAtCopied(s: string, p: string, r: string)
    requires Bracketed(p, r) && s != "" && !(p <= s)
    ensures !(p <= ReplaceAll(s, p, r))
  {
    var o := ReplaceAll(s, p, r);
    assert o[1..] == ReplaceAll(s[1..], p, r);
    PlainPrefix(s[1..], p, r, p[1..]);
    PrefixCons(o, p);
    PrefixCons(s, p);
  }

  lemma NothingInReplacement(p: string, r: string, after: string, i: nat)
    requires Bracketed(p, r) && i < |r|
    ensures !OccursAt(r + after, p, i)
  {
    if i == 0 {
      var d :| 0 <= d < |p| && d < |r| && p[d] != r[d];
      DiffersAt(r + after, p, 0, d);
    } else {
      assert (r + after)[i] == r[1..][i - 1];
      DiffersAt(r + after, p, i, 0);
    }
  }

  lemma {:induction false} NothingLeftAt(s: string, p: string, r: string, i: nat)
    requires Bracketed(p, r)
    ensures !OccursAt(ReplaceAll(s, p, r), p, i)
    decreases |s|
  {
    var o := ReplaceAll(s, p, r);
    if s == "" {
    } else if p <= s {
      var after := ReplaceAll(s[|p|..], p, r);
      if i < |r| {
        NothingInReplacement(p, r, after, i);
      } else {
        NothingLeftAt(s[|p|..], p, r, i - |r|);
        assert o[|r|..] == after;
        OccursAtShift(o, p, |r|, i - |r|);
      }
    } else if i == 0 {
      NothingAtCopied(s, p, r);
      assert o[0..] == o;
    } else {
      NothingLeftAt(s[1..], p, r, i - 1);
      assert o[1..] == ReplaceAll(s[1..], p, r);
      OccursAtShift(o, p, 1, i - 1);
    }
  }

  /** A rewritten text is a normal form: no end event is left in it, not even one that formed
      across a replacement's edge, so rewriting twice is rewriting once. The guard of `Match`,
      "the text changed", is true exactly when the end event occurs. */
  lemma NormalForm(rule: LiteralRule, s: string)
    requires rule.WellFormed()
    ensures !Occurs(rule.Apply(s), rule.Pattern())
    ensures rule.Apply(rule.Apply(s)) == rule.Apply(s)
    ensures rule.Apply(s) != s <==> Occurs(s, rule.Pattern())
  {
    WellFormedIsBracketed(rule);
    var p, r := rule.Pattern(), rule.Replacement();
    forall i: int | 0 <= i ensures !OccursAt(rule.Apply(s), p, i) { NothingLeftAt(s, p, r, i); }
    CopiesAll(rule.Apply(s), p, r);
    if !Occurs(s, p) { CopiesAll(s, p, r); }
  }

  lemma CopiesAll(s: string, p: string, r: string)
    requires p != "" && !Occurs(s, p)
    ensures ReplaceAll(s, p, r) == s
  {
    CopiesUntilMatch(s, p, r, |s|);
    assert s[..|s|] == s && s[|s|..] == "";
  }

  lemma StartsBeforeBracket(u: string, v: string, p: string)
    requires u != "" && p != "" && '[' !in p[1..]
    requires v != "" ==> v[0] == '['
    ensures p <= u + v <==> p <= u
  {
    if |u| < |p| <= |u + v| {
      assert p[|u|] == p[1..][|u| - 1];
      DiffersAt(u + v, p, 0, |u|);
      assert (u + v)[0..] == u + v;
    }
  }

  lemma CopiesFirst(c: char, s: string, p: string, r: string)
    requires p != "" && !(p <= [c] + s)
    ensures ReplaceAll([c] + s, p, r) == [c] + ReplaceAll(s, p, r)
  {
    assert ([c] + s)[1..] == s;
  }

  lemma Regroup(a: string, b: string, c: string)
    ensures a + b + c == a + (b + c)
  {
  }

  lemma SplitsAfterMatch(rest: string, v: string, p: string, r: string)
    requires p != "" && ReplaceAll(rest + v, p, r) == ReplaceAll(rest, p, r) + ReplaceAll(v, p, r)
    ensures ReplaceAll(p + rest + v, p, r) == ReplaceAll(p + rest, p, r) + ReplaceAll(v, p, r)
  {
    Regroup(p, rest, v);
    RewritesPrefix(p, r, rest);
    RewritesPrefix(p, r, rest + v);
    Regroup(r, ReplaceAll(rest, p, r), ReplaceAll(v, p, r));
  }

  lemma SplitsAfterCopy(c: char, rest: string, v: string, p: string, r: string)
    requires p != "" && ReplaceAll(rest + v, p, r) == ReplaceAll(rest, p, r) + ReplaceAll(v, p, r)
    requires !(p <= [c] + rest) && !(p <= [c] + rest + v)
    ensures ReplaceAll([c] + rest + v, p, r) == ReplaceAll([c] + rest, p, r) + ReplaceAll(v, p, r)
  {
    Regroup([c], rest, v);
    CopiesFirst(c, rest, p, r);
    CopiesFirst(c, rest + v, p, r);
    Regroup([c], ReplaceAll(rest, p, r), ReplaceAll(v, p, r));
  }

  /** Occurrences never straddle an opening bracket, so rewriting distributes over a cut there. */
  lemma {:induction false} SplitsAtBracket(u: string, v: string, p: string, r: string)
    requires Bracketed(p, r)
    requires v != "" ==> v[0] == '['
    ensures ReplaceAll(u + v, p, r) == ReplaceAll(u, p, r) + ReplaceAll(v, p, r)
    decreases |u|
  {
    if u == "" {
      assert u + v == v;
    } else if p <= u {
      SplitsAtBracket(u[|p|..], v, p, r);
      assert u == p + u[|p|..];
      SplitsAfterMatch(u[|p|..], v, p, r);
    } else {
      StartsBeforeBracket(u, v, p);
      SplitsAtBracket(u[1..], v, p, r);
      assert u == [u[0]] + u[1..];
      SplitsAfterCopy(u[0], u[1..], v, p, r);
    }
  }

  /** Round trip: an end event stands exactly where its start event stood. With no end event in
      the surrounding text, the end text rewrites to the very text that was posted at the start. */
  lemma EndRewritesToStart(rule: LiteralRule, before: string, after: string)
    requires rule.WellFormed()
    ensures rule.Apply(before + rule.Pattern() + after)
         == rule.Apply(before) + rule.Replacement() + rule.Apply(after)
    ensures !Occurs(before, rule.Pattern()) && !Occurs(after, rule.Pattern()) ==>
              rule.Apply(before + rule.Pattern() + after) == before + rule.Replacement() + after
  {
    WellFormedIsBracketed(rule);
    var p, r := rule.Pattern(), rule.Replacement();
    RewritesAround(before, after, p, r);
    if !Occurs(before, p) && !Occurs(after, p) {
      CopiesAll(before, p, r);
      CopiesAll(after, p, r);
    }
  }

  lemma RewritesAround(before: string, after: string, p: string, r: string)
    requires Bracketed(p, r)
    ensures ReplaceAll(before + p + after, p, r) == ReplaceAll(before, p, r) + r + ReplaceAll(after, p, r)
  {
    assert before + p + after == before + (p + after);
    SplitsAtBracket(before, p + after, p, r);
    RewritesPrefix(p, r, after);
  }
}
