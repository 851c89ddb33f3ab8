/** The four rules without capture groups, text by text: which event each end event is looked up as. */
module RuleTable {
  import opened Text
  import opened Rewriting
  import opened RegionCache

  /** No rule without capture groups applies to this text. */
  predicate Quiet(s: string) {
    && !Occurs(s, "[Malware Remover] Scan completed.")
    && !Occurs(s, "[Firmware Update] Started updating firmware")
    && !Occurs(s, "[Firmware Update] Updated system.")
    && !Occurs(s, "[SecurityCounselor] Finished")
  }

  /** None of the capturing rules applies to this text. */
  predicate NotCaptured(captures: seq<Rewrite>, s: string) {
    |captures| == 6 && forall i | 0 <= i < 6 :: captures[i](s) == s
  }

  // ----- What the rules say, letter by letter

  // One literal at a time, to keep each proof short
  lemma MalwareHead() ensures "[" + "Malware Remover" + "] " == "[Malware Remover] " {}
  lemma FirmwareHead() ensures "[" + "Firmware Update" + "] " == "[Firmware Update] " {}
  lemma CounselorHead() ensures "[" + "SecurityCounselor" + "] " == "[SecurityCounselor] " {}
  lemma MalwareRemoverEnd() ensures "[Malware Remover] " + "Scan completed." == "[Malware Remover] Scan completed." {}
  lemma MalwareRemoverStart()
    ensures "[Malware Remover] " + "Started scanning." == "[Malware Remover] Started scanning."
  {
  }
  lemma FirmwareDownloadEnd()
    ensures "[Firmware Update] " + "Started updating firmware" == "[Firmware Update] Started updating firmware"
  {
  }
  lemma FirmwareDownloadStart()
    ensures "[Firmware Update] " + "Started downloading firmware" == "[Firmware Update] Started downloading firmware"
  {
  }
  lemma FirmwareUpdateEnd() ensures "[Firmware Update] " + "Updated system." == "[Firmware Update] Updated system." {}
  lemma FirmwareUpdateStart()
    ensures "[Firmware Update] " + "Started updating firmware." == "[Firmware Update] Started updating firmware."
  {
  }
  lemma SecurityCounselorEnd() ensures "[SecurityCounselor] " + "Finished" == "[SecurityCounselor] Finished" {}
  lemma SecurityCounselorStart() ensures "[SecurityCounselor] " + "Started" == "[SecurityCounselor] Started" {}

  lemma MalwareRemoverSays()
    ensures MALWARE_REMOVER.Pattern() == "[Malware Remover] Scan completed."
    ensures MALWARE_REMOVER.Replacement() == "[Malware Remover] Started scanning."
  {
    MalwareHead();
    MalwareRemoverEnd();
    MalwareRemoverStart();
  }

  lemma FirmwareDownloadSays()
    ensures FIRMWARE_DOWNLOAD.Pattern() == "[Firmware Update] Started updating firmware"
    ensures FIRMWARE_DOWNLOAD.Replacement() == "[Firmware Update] Started downloading firmware"
  {
    FirmwareHead();
    FirmwareDownloadEnd();
    FirmwareDownloadStart();
  }

  lemma FirmwareUpdateSays()
    ensures FIRMWARE_UPDATE.Pattern() == "[Firmware Update] Updated system."
    ensures FIRMWARE_UPDATE.Replacement() == "[Firmware Update] Started updating firmware."
  {
    FirmwareHead();
    FirmwareUpdateEnd();
    FirmwareUpdateStart();
  }

  lemma SecurityCounselorSays()
    ensures SECURITY_COUNSELOR.Pattern() == "[SecurityCounselor] Finished"
    ensures SECURITY_COUNSELOR.Replacement() == "[SecurityCounselor] Started"
  {
    CounselorHead();
    SecurityCounselorEnd();
    SecurityCounselorStart();
  }

  lemma QuietIs(s: string)
    ensures Quiet(s) <==> forall rule | rule in LITERAL_RULES :: !Occurs(s, rule.Pattern())
  {
    MalwareRemoverSays();
    FirmwareDownloadSays();
    FirmwareUpdateSays();
    SecurityCounselorSays();
    var l := LITERAL_RULES;
    assert l[0] in l && l[1] in l && l[2] in l && l[3] in l;
  }

  lemma QuietTail(c: char, s: string)
    requires Quiet([c] + s)
    ensures Quiet(s)
  {
    assert ([c] + s)[1..] == s;
    forall p: string | Occurs(s, p) ensures Occurs([c] + s, p) {
      var i :| 0 <= i <= |s| && OccursAt(s, p, i);
      OccursAtShift([c] + s, p, 1, i);
    }
  }

  // ----- One rule at most applies to an end event

  /** The texts of two rules differ at the first letter of their tags or of their tails. */
  predicate Apart(a: LiteralRule, b: LiteralRule) {
    && a.tag != "" && b.tag != "" && a.endTail != "" && b.endTail != ""
    && (a.tag[0] != b.tag[0] || (a.tag == b.tag && a.endTail[0] != b.endTail[0]))
  }

  lemma FirstLetters()
    ensures MALWARE_REMOVER.tag[0] == 'M' && SECURITY_COUNSELOR.tag[0] == 'S'
    ensures FIRMWARE_DOWNLOAD.tag[0] == 'F' && FIRMWARE_DOWNLOAD.tag == FIRMWARE_UPDATE.tag
    ensures FIRMWARE_DOWNLOAD.endTail[0] == 'S' && FIRMWARE_UPDATE.endTail[0] == 'U'
  {
  }

  lemma RulesAreApart(a: LiteralRule, b: LiteralRule)
    requires a in LITERAL_RULES && b in LITERAL_RULES && a != b
    ensures Apart(a, b)
  {
    FirstLetters();
  }

  /** A rule leaves alone a one-bracket text that disagrees with it, between texts it leaves alone. */
  lemma LeftAlone(rule: LiteralRule, pre: string, q: string, w: string, d: nat)
    requires rule.WellFormed() && !Occurs(pre, rule.Pattern()) && !Occurs(w, rule.Pattern())
    requires q != "" && q[0] == '[' && '[' !in q[1..]
    requires d < |rule.Pattern()| && d < |q| && rule.Pattern()[d] != q[d]
    ensures rule.Apply(pre + q + w) == pre + q + w
  {
    var p, r, s := rule.Pattern(), rule.Replacement(), q + w;
    WellFormedIsBracketed(rule);
    forall i: int | 0 <= i < |q| ensures !OccursAt(s, p, i) {
      if i > 0 { assert s[i] == q[1..][i - 1]; }
      DiffersAt(s, p, i, if i == 0 then d else 0);
    }
    CopiesUntilMatch(s, p, r, |q|);
    assert s[..|q|] == q && s[|q|..] == w;
    CopiesAll(w, p, r);
    SplitsAtBracket(pre, s, p, r);
    CopiesAll(pre, p, r);
    assert pre + q + w == pre + s;
  }

  lemma OneBracket(rule: LiteralRule)
    requires rule.WellFormed()
    ensures var q := rule.Pattern(); q != "" && q[0] == '[' && '[' !in q[1..]
  {
    assert rule.Pattern()[1..] == rule.tag + "] " + rule.endTail;
  }

  lemma OthersLeaveAlone(rule: LiteralRule, event: LiteralRule, pre: string, w: string)
    requires rule in LITERAL_RULES && event in LITERAL_RULES && rule != event
    requires !Occurs(pre, rule.Pattern()) && !Occurs(w, rule.Pattern())
    ensures rule.Apply(pre + event.Pattern() + w) == pre + event.Pattern() + w
  {
    RulesAreApart(rule, event);
    LiteralRulesWellFormed(rule);
    LiteralRulesWellFormed(event);
    OneBracket(event);
    LeftAlone(rule, pre, event.Pattern(), w, if rule.tag[0] != event.tag[0] then 1 else |rule.Head()|);
  }

  /** When rule `k` alone changes the text, `Match` looks for what `k` makes of it. */
  lemma OnlyRuleDecides(rules: seq<Rewrite>, live: seq<Entry>, text: string, k: nat)
    requires k < |rules| && rules[k](text) != text
    requires forall k' | 0 <= k' < |rules| && k' != k :: rules[k'](text) == text
    ensures Select(rules, live, text, 0) == Find(live, rules[k](text))
  {
    var i := Find(live, rules[k](text));
    SelectIsFirstHit(rules, live, text);
    if i >= 0 {
      assert FirstHit(rules, live, text, k, i);
    } else {
      assert forall k', i' :: !Hit(rules, live, text, k', i');
      assert forall k', i' :: !FirstHit(rules, live, text, k', i');
    }
  }

  /** Where the rules without capture groups stand in the table. */
  function Position(rule: LiteralRule): nat {
    if rule == MALWARE_REMOVER then 0
    else if rule == FIRMWARE_DOWNLOAD then 2
    else if rule == FIRMWARE_UPDATE then 3
    else 9
  }

  /** The table, position by position: a rule without capture groups, or one that leaves `s` alone. */
  lemma TableAt(captures: seq<Rewrite>, s: string, k: nat)
    requires NotCaptured(captures, s) && k < 10
    ensures |Table(captures)| == 10
    ensures Table(captures)[k](s) == s || exists rule | rule in LITERAL_RULES ::
              Position(rule) == k && Table(captures)[k](s) == rule.Apply(s)
  {
    TableHoldsLiterals(captures, s);
    var t, l := Table(captures), LITERAL_RULES;
    assert l[0] in l && l[1] in l && l[2] in l && l[3] in l;
    FirstLetters();
    if 4 <= k < 9 {
      assert t[k] == t[4..9][k - 4] == captures[k - 3];
    }
  }

  lemma TableHas(captures: seq<Rewrite>, s: string, rule: LiteralRule)
    requires |captures| == 6 && rule in LITERAL_RULES
    ensures Position(rule) < |Table(captures)| && Table(captures)[Position(rule)](s) == rule.Apply(s)
  {
    TableHoldsLiterals(captures, s);
    FirstLetters();
  }

  /** In any quiet surrounding text, `Match` looks an end event up as its start event and as nothing else. */
  lemma EndLooksForStart(captures: seq<Rewrite>, live: seq<Entry>, rule: LiteralRule, before: string, after: string)
    requires rule in LITERAL_RULES && Quiet(before) && Quiet(after)
    requires NotCaptured(captures, before + rule.Pattern() + after)
    ensures Select(Table(captures), live, before + rule.Pattern() + after, 0)
         == Find(live, before + rule.Replacement() + after)
  {
    var t, s := Table(captures), before + rule.Pattern() + after;
    QuietIs(before);
    QuietIs(after);
    LiteralRulesWellFormed(rule);
    EndRewritesToStart(rule, before, after);
    NormalForm(rule, s);
    OccursAfter(before, rule.Pattern(), after);
    TableHas(captures, s, rule);
    forall k | 0 <= k < |t| && k != Position(rule) ensures t[k](s) == s {
      OtherPosition(captures, rule, before, after, k);
    }
    OnlyRuleDecides(t, live, s, Position(rule));
  }

  lemma OtherPosition(captures: seq<Rewrite>, rule: LiteralRule, before: string, after: string, k: nat)
    requires rule in LITERAL_RULES && k < 10 && k != Position(rule)
    requires forall r | r in LITERAL_RULES :: !Occurs(before, r.Pattern()) && !Occurs(after, r.Pattern())
    requires NotCaptured(captures, before + rule.Pattern() + after)
    ensures |Table(captures)| == 10
    ensures var s := before + rule.Pattern() + after; Table(captures)[k](s) == s
  {
    var s := before + rule.Pattern() + after;
    TableAt(captures, s, k);
    if Table(captures)[k](s) != s {
      var other :| other in LITERAL_RULES && Position(other) == k && Table(captures)[k](s) == other.Apply(s);
      OthersLeaveAlone(other, rule, before, after);
    }
  }

  // ----- The rules as their authors wrote them

  lemma MalwareScanEnds(captures: seq<Rewrite>, live: seq<Entry>, before: string, after: string)
    requires Quiet(before) && Quiet(after)
    requires NotCaptured(captures, before + "[Malware Remover] Scan completed." + after)
    ensures Select(Table(captures), live, before + "[Malware Remover] Scan completed." + after, 0)
         == Find(live, before + "[Malware Remover] Started scanning." + after)
  {
    MalwareRemoverSays();
    EndLooksForStart(captures, live, MALWARE_REMOVER, before, after);
  }

  lemma FirmwareDownloadEnds(captures: seq<Rewrite>, live: seq<Entry>, before: string, after: string)
    requires Quiet(before) && Quiet(after)
    requires NotCaptured(captures, before + "[Firmware Update] Started updating firmware" + after)
    ensures Select(Table(captures), live, before + "[Firmware Update] Started updating firmware" + after, 0)
         == Find(live, before + "[Firmware Update] Started downloading firmware" + after)
  {
    FirmwareDownloadSays();
    EndLooksForStart(captures, live, FIRMWARE_DOWNLOAD, before, after);
  }

  lemma FirmwareUpdateEnds(captures: seq<Rewrite>, live: seq<Entry>, before: string, after: string)
    requires Quiet(before) && Quiet(after)
    requires NotCaptured(captures, before + "[Firmware Update] Updated system." + after)
    ensures Select(Table(captures), live, before + "[Firmware Update] Updated system." + after, 0)
         == Find(live, before + "[Firmware Update] Started updating firmware." + after)
  {
    FirmwareUpdateSays();
    EndLooksForStart(captures, live, FIRMWARE_UPDATE, before, after);
  }

  lemma CounselorScanEnds(captures: seq<Rewrite>, live: seq<Entry>, before: string, after: string)
    requires Quiet(before) && Quiet(after)
    requires NotCaptured(captures, before + "[SecurityCounselor] Finished" + after)
    ensures Select(Table(captures), live, before + "[SecurityCounselor] Finished" + after, 0)
         == Find(live, before + "[SecurityCounselor] Started" + after)
  {
    SecurityCounselorSays();
    EndLooksForStart(captures, live, SECURITY_COUNSELOR, before, after);
  }

  /** A text that no rule applies to ends nothing. */
  lemma QuietEndsNothing(captures: seq<Rewrite>, live: seq<Entry>, s: string)
    requires Quiet(s) && NotCaptured(captures, s)
    ensures Select(Table(captures), live, s, 0) == -1
  {
    var t := Table(captures);
    QuietIs(s);
    forall k | 0 <= k < |t| ensures t[k](s) == s {
      TableAt(captures, s, k);
      forall rule | rule in LITERAL_RULES ensures rule.Apply(s) == s {
        LiteralRulesWellFormed(rule);
        CopiesAll(s, rule.Pattern(), rule.Replacement());
      }
    }
    SelectIsFirstHit(t, live, s);
    assert forall k, i :: !Hit(t, live, s, k, i);
    assert forall k, i :: !FirstHit(t, live, s, k, i);
  }
}
