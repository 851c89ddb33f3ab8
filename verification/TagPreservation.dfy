/** Rewriting an end event into its start event commutes with tag extraction. */
module TagPreservation {
  import opened Text
  import opened Rewriting
  import opened TagExtraction

  predicate SameTags(o1: Outcome, o2: Outcome) {
    match (o1, o2)
    case (Panicked, Panicked) => true
    case (Extracted(_, tags1), Extracted(_, tags2)) => tags1 == tags2
    case _ => false
  }

  lemma CleanSuffix(tag: string, i: nat)
    requires Clean(tag) && i <= |tag|
    ensures Clean(tag[i..])
  {
    forall j: int | 0 <= j ensures !OccursAt(tag[i..], "] ", j) {
      OccursAtShift(tag, "] ", i, j);
    }
  }

  lemma EventHasClose(rule: LiteralRule, s: string, i: nat)
    ensures OccursAt(s, rule.Pattern(), i) ==> OccursAt(s, "] ", 1 + i + |rule.tag|)
  {
    if OccursAt(s, rule.Pattern(), i) {
      OccursSplit(s, rule.Pattern(), i);
      var before, after := s[..i] + "[" + rule.tag, rule.endTail + s[i + |rule.Pattern()|..];
      assert s == before + "] " + after;
      OccursAfter(before, "] ", after);
    }
  }

  /** A text without "] " holds no end event. */
  lemma NoCloseNoEvent(rule: LiteralRule, s: string)
    requires s != "" && !Occurs(s[1..], "] ")
    ensures rule.Apply(s) == s
  {
    forall i: int ensures !OccursAt(s, rule.Pattern(), i) {
      if i >= 0 {
        EventHasClose(rule, s, i);
        OccursAtShift(s, "] ", 1, i + |rule.tag|);
      }
    }
    CopiesAll(s, rule.Pattern(), rule.Replacement());
  }

  /** An end event that starts inside the leading block ends that block with its own head. */
  lemma EventSharesClose(rule: LiteralRule, tag: string, tail: string, i: nat)
    requires rule.WellFormed() && Clean(tag)
    requires i < |Block(tag)| && OccursAt(Block(tag) + tail, rule.Pattern(), i)
    ensures Block(tag) == (Block(tag) + tail)[..i] + rule.Head()
  {
    var s, p := Block(tag) + tail, rule.Pattern();
    OccursSplit(s, p, i);
    assert s[i] == s[i..][0] == '[';
    BlockFrom(tag, tail, i);
    CleanSuffix(tag, i);
    var after := s[i + |p|..];
    assert s[i..] == "[" + (rule.tag + "] " + (rule.endTail + after));
    SameClose(tag[i..], tail, rule.tag, rule.endTail + after);
  }

  lemma SameClose(tag1: string, rest1: string, tag2: string, rest2: string)
    requires Clean(tag1) && Clean(tag2)
    requires "[" + (tag1 + "] " + rest1) == "[" + (tag2 + "] " + rest2)
    ensures tag1 == tag2
  {
    var s1, s2 := tag1 + "] " + rest1, tag2 + "] " + rest2;
    assert s1 == ("[" + s1)[1..] == ("[" + s2)[1..] == s2;
    FirstClose(tag1, rest1);
    FirstClose(tag2, rest2);
    assert tag1 == s1[..|tag1|] && tag2 == s2[..|tag2|];
  }

  /** A block has no bracket after its tag, so one inside it splits the tag. */
  lemma BlockFrom(tag: string, tail: string, i: nat)
    requires i < |Block(tag)| && (Block(tag) + tail)[i] == '['
    ensures i <= |tag|
    ensures (Block(tag) + tail)[i..] == "[" + (tag[i..] + "] " + tail)
    ensures Block(tag) == (Block(tag) + tail)[..i] + "[" + tag[i..] + "] "
  {
    var b := Block(tag);
    assert b[|tag| + 1] == ']' && b[|tag| + 2] == ' ';
    assert b[i] == '[';
    assert b == b[..i] + b[i..];
    assert b[i..] == "[" + tag[i..] + "] ";
  }

  lemma ParsePlain(s: string)
    requires s != "" && s[0] != '['
    ensures Parse(s) == Extracted(s, [])
  {
  }

  /** The block is kept and the text after it still opens no further block. */
  lemma EventInBlock(rule: LiteralRule, tag: string, u: string, after: string, after': string)
    requires rule.WellFormed() && Clean(tag)
    requires Block(tag) == u + rule.Head()
    ensures SameTags(Parse(u + rule.Pattern() + after), Parse(u + rule.Replacement() + after'))
  {
    var tail, tail' := rule.endTail + after, rule.startTail + after';
    assert u + rule.Pattern() + after == Block(tag) + tail;
    assert u + rule.Replacement() + after' == Block(tag) + tail';
    ParseBlock(tag, tail);
    ParseBlock(tag, tail');
    ParsePlain(tail);
    ParsePlain(tail');
  }

  lemma LeadingEvent(rule: LiteralRule, tag: string, tail: string)
    requires rule.WellFormed() && Clean(tag)
    requires 0 <= Index(Block(tag) + tail, rule.Pattern()) < |Block(tag)|
    ensures SameTags(Parse(Block(tag) + tail), Parse(rule.Apply(Block(tag) + tail)))
  {
    var s, p, r := Block(tag) + tail, rule.Pattern(), rule.Replacement();
    var first := Index(s, p);
    var before, after := s[..first], s[first + |p|..];
    EventSharesClose(rule, tag, tail, first);
    OccursSplit(s, p, first);
    assert s == before + p + after;
    RewritesFirst(before, p, r, after);
    EventInBlock(rule, tag, before, after, ReplaceAll(after, p, r));
  }

  /** For every text, the rewritten text is extractable exactly when the original is, and carries
      the same tags: a closed region's end and start events are tagged alike. */
  lemma {:induction false} RewriteKeepsTags(rule: LiteralRule, s: string)
    requires rule.WellFormed()
    ensures SameTags(Parse(s), Parse(rule.Apply(s)))
    decreases |s|
  {
    var p, r := rule.Pattern(), rule.Replacement();
    if s == "" {
    } else if s[0] != '[' {
      assert rule.Apply(s)[0] == s[0] by { assert p[0] == '['; }
    } else if Index(s[1..], "] ") == -1 {
      NoCloseNoEvent(rule, s);
    } else {
      var close := Index(s[1..], "] ");
      var tag, tail := s[1..][..close], s[1..][close + 2..];
      SplitBlock(s, close);
      if i: int :| 0 <= i < |Block(tag)| && OccursAt(s, p, i) {
        LeadingEvent(rule, tag, tail);
      } else {
        CopiesUntilMatch(s, p, r, |Block(tag)|);
        assert s[..|Block(tag)|] == Block(tag) && s[|Block(tag)|..] == tail;
        RewriteKeepsTags(rule, tail);
        ParseBlock(tag, tail);
        ParseBlock(tag, rule.Apply(tail));
      }
    }
  }
}
