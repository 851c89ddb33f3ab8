/** "Started updating firmware." both ends a download and starts an update. When a download of the same
    wording is open, posting it closes that download, and then it is not remembered as a start. */
module FirmwareChain {
  import opened Basics
  import opened Rewriting
  import opened TagExtraction
  import opened RegionCache
  import opened RuleTable
  import opened Annotations
  import opened Annotators
  import opened RegionPairing

  // The texts, with anything before the event (such as a host's block) and after it. The download's
  // end is only looked up as the wording that has a full stop where a version may stand.
  function DownloadStarted(pre: string, w: string): string {
    pre + "[Firmware Update] Started downloading firmware" + ("." + w)
  }
  function UpdateStarted(pre: string, w: string): string {
    pre + "[Firmware Update] Started updating firmware" + ("." + w)
  }
  function UpdateFinished(pre: string, w: string): string { pre + "[Firmware Update] Updated system." + w }

  lemma UpdateStartHasStop()
    ensures "[Firmware Update] Started updating firmware." == "[Firmware Update] Started updating firmware" + "."
  {
  }

  lemma MoveStop(pre: string, q: string, w: string)
    ensures pre + (q + ".") + w == pre + q + ("." + w)
  {
  }

  /** `chained` ends `first` and starts what `last` ends: `Match` looks for nothing else. */
  ghost predicate Chain(c: Config, first: string, chained: string, last: string) {
    && (forall l :: Select(c.rules, l, chained, 0) == Find(l, first))
    && (forall l :: Select(c.rules, l, last, 0) == Find(l, chained))
  }

  /** The firmware texts form a chain, whatever quiet text stands around the events. */
  lemma FirmwareIsChain(c: Config, captures: seq<Rewrite>, pre: string, w: string)
    requires NotCaptured(captures, UpdateStarted(pre, w)) && NotCaptured(captures, UpdateFinished(pre, w))
    requires c.rules == Table(captures) && Quiet(pre) && Quiet("." + w)
    ensures Chain(c, DownloadStarted(pre, w), UpdateStarted(pre, w), UpdateFinished(pre, w))
  {
    var first, chained, last := DownloadStarted(pre, w), UpdateStarted(pre, w), UpdateFinished(pre, w);
    forall l ensures Select(c.rules, l, chained, 0) == Find(l, first) {
      FirmwareDownloadEnds(captures, l, pre, "." + w);
    }
    QuietTail('.', w);
    UpdateStartHasStop();
    MoveStop(pre, "[Firmware Update] Started updating firmware", w);
    forall l ensures Select(c.rules, l, last, 0) == Find(l, chained) {
      FirmwareUpdateEnds(captures, l, pre, w);
    }
  }

  // ----- What becomes of a chained event

  /** The entries that stay in the cache when one more is added. */
  function Staying(live: seq<Entry>, cacheSize: int): seq<Entry>
    requires cacheSize >= 1
  {
    if |live| >= cacheSize then live[1..] else live
  }

  lemma {:induction false} FindInFront(live: seq<Entry>, e: Entry)
    ensures var i := Find(live + [e], e.annotation);
            if Find(live, e.annotation) == -1 then i == |live| else i == Find(live, e.annotation)
  {
    var all := live + [e];
    var i, k := Find(all, e.annotation), Find(live, e.annotation);
    assert all[|live|] == e;
    assert forall j | 0 <= j < |live| :: all[j] == live[j];
    assert k >= 0 ==> all[k].annotation == e.annotation;
  }

  lemma AddedIsStaying(live: seq<Entry>, cacheSize: int, e: Entry)
    requires cacheSize >= 1
    ensures Added(live, cacheSize, e) == Staying(live, cacheSize) + [e]
    ensures forall x | x in Staying(live, cacheSize) :: x in live
  {
  }

  /** Looking for `e`'s text after `e` was added to the live entries. */
  lemma AddedFindsOwn(live: seq<Entry>, cacheSize: int, e: Entry)
    requires |live| <= Capacity(cacheSize) && forall x | x in live :: x.id != e.id
    ensures var live' := Added(live, cacheSize, e);
            var i := Find(live', e.annotation);
            i >= 0 && live'[i] == e <==> cacheSize >= 1 && Find(Staying(live, cacheSize), e.annotation) == -1
  {
    if cacheSize >= 1 {
      var staying := Staying(live, cacheSize);
      AddedIsStaying(live, cacheSize, e);
      FindInFront(staying, e);
      var k := Find(staying, e.annotation);
      if k >= 0 {
        assert (staying + [e])[k] == staying[k] && staying[k] in staying;
      }
    } else {
      assert Added(live, cacheSize, e) == [];
    }
  }

  lemma WithoutFindsOther(live: seq<Entry>, i: nat, annotation: string, id: int)
    requires i < |live| && forall k | 0 <= k < |live| :: live[k].id != id
    ensures var live' := Without(live, i);
            var k := Find(live', annotation);
            k >= 0 ==> live'[k].id != id
  {
    var live' := Without(live, i);
    assert forall k | 0 <= k < |live'| :: live'[k] == live[if k < i then k else k + 1];
  }

  lemma PostedLive(c: Config, live: seq<Entry>, first: string, chained: string, time: int, id: int)
    requires Select(c.rules, live, chained, 0) == Find(live, first) && Parse(chained).Extracted?
    requires forall i | 0 <= i < |live| :: live[i].id != -1
    ensures var i := Find(live, first);
            PostOutcome(c, live, chained, time, Accepted(id)).0
              == if i >= 0 then Without(live, i) else Added(live, c.cacheSize, Entry(id, chained))
  {
    RequestOwns(c, chained, time, Matched(c, live, chained).0);
  }

  /** What `Match` reports when it looks for one text only. */
  lemma MatchedIsFound(c: Config, live: seq<Entry>, text: string, start: string, e: Entry)
    requires Select(c.rules, live, text, 0) == Find(live, start) && e.id != -1
    ensures var i := Find(live, start); Matched(c, live, text).0 == Some(e) <==> i >= 0 && live[i] == e
  {
  }

  /** Just after a chained event was posted and answered with a new id, the last event finds it if and
      only if nothing was open for the chained event to end, no older start of the chained text stays
      in the cache, and the cache has room at all. */
  lemma LastFindsIff(c: Config, live: seq<Entry>, first: string, chained: string, last: string, time: int, id: int)
    requires Chain(c, first, chained, last) && Parse(chained).Extracted?
    requires id != -1 && forall x | x in live :: x.id != -1 && x.id != id
    requires |live| <= Capacity(c.cacheSize)
    ensures var live' := PostOutcome(c, live, chained, time, Accepted(id)).0;
            Matched(c, live', last).0 == Some(Entry(id, chained)) <==>
              && c.cacheSize >= 1 && Find(live, first) == -1
              && Find(Staying(live, c.cacheSize), chained) == -1
  {
    var i, e := Find(live, first), Entry(id, chained);
    var live' := if i >= 0 then Without(live, i) else Added(live, c.cacheSize, e);
    assert Select(c.rules, live, chained, 0) == i && Select(c.rules, live', last, 0) == Find(live', chained);
    assert forall k | 0 <= k < |live| :: live[k] in live;
    PostedLive(c, live, first, chained, time, id);
    MatchedIsFound(c, live', last, chained, e);
    if i >= 0 {
      WithoutFindsOther(live, i, chained, id);
    } else {
      AddedFindsOwn(live, c.cacheSize, e);
    }
  }

  /** The state after an undisturbed post of `annotation`, accepted with this id. */
  function Accept(c: Config, s: System, post: nat, annotation: string, time: int, id: int): System
    requires InRange(s.history)
  {
    Next(c, Sent(c, s, post, annotation, time, Accepted(id)), Finish(post))
  }

  lemma AcceptIsSafe(c: Config, s: System, post: nat, annotation: string, time: int, id: int)
    requires Safe(c, s)
    ensures Safe(c, Accept(c, s, post, annotation, time, id))
  {
    StepIsSafe(c, s, Begin(post, annotation, time));
    var s1 := Next(c, s, Begin(post, annotation, time));
    StepIsSafe(c, s1, Respond(post, Accepted(id)));
    StepIsSafe(c, Next(c, s1, Respond(post, Accepted(id))), Finish(post));
  }

  lemma AcceptAdds(c: Config, s: System, post: nat, annotation: string, time: int, id: int)
    requires InRange(s.history) && Enabled(s, Begin(post, annotation, time))
    requires HitOf(c, s.history, annotation).None? ==> Fresh(s, id)
    ensures Accept(c, s, post, annotation, time, id).history.adds
         == s.history.adds + if HitOf(c, s.history, annotation).None? then [Entry(id, annotation)] else []
  {
    RequestOwns(c, annotation, time, HitOf(c, s.history, annotation));
  }

  /** Over whole runs: with something open to end, the chained event is never remembered; with nothing
      open it is cached, and after any run that neither consumes it nor makes `cacheSize` further Adds
      the last event finds it if and only if no older start of the chained text is still live. */
  lemma ChainedOverRuns(c: Config, s: System, first: string, chained: string, last: string,
                        post: nat, time: int, id: int, evs: seq<Event>, s': System)
    requires Safe(c, s) && Chain(c, first, chained, last) && Enabled(s, Begin(post, chained, time))
    requires Find(Live(s.history), first) == -1 ==> Fresh(s, id)
    requires s' == Run(c, Accept(c, s, post, chained, time, id), evs)
    ensures InRange(s'.history)
    ensures var s1, j := Accept(c, s, post, chained, time, id), |s.history.adds|;
            if Find(Live(s.history), first) >= 0 then s1.history.adds == s.history.adds
            else
              && s1.history.adds == s.history.adds + [Entry(id, chained)]
              && (j !in s'.history.returned && |s'.history.adds| - j <= c.cacheSize ==>
                    (HitOf(c, s'.history, last) == Some(Entry(id, chained)) <==>
                     !exists x :: OlderStart(s'.history, chained, j, x)))
  {
    var s1, j, h := Accept(c, s, post, chained, time, id), |s.history.adds|, s'.history;
    assert Select(c.rules, Live(s.history), chained, 0) == Find(Live(s.history), first);
    AcceptAdds(c, s, post, chained, time, id);
    AcceptIsSafe(c, s, post, chained, time, id);
    RunIsSafe(c, s1, evs);
    AddsGrow(c, s1, evs);
    if Find(Live(s.history), first) == -1 && j !in h.returned && |h.adds| - j <= c.cacheSize {
      assert h.adds[j] == s1.history.adds[j] == Entry(id, chained);
      Survives(h, c.cacheSize, j);
      OwnOrOlder(c, s', chained, last, j);
    }
  }

  /** Live entry `x` is an older start of this text than Add `j`. */
  predicate OlderStart(h: History, annotation: string, j: nat, x: int)
    requires InRange(h)
  {
    0 <= x < |h.live| && h.live[x] < j && h.adds[h.live[x]].annotation == annotation
  }

  lemma OwnOrOlder(c: Config, s: System, chained: string, last: string, j: nat)
    requires Safe(c, s) && j in s.history.live && j < |s.history.adds|
    requires s.history.adds[j].annotation == chained
    requires forall l :: Select(c.rules, l, last, 0) == Find(l, chained)
    ensures HitOf(c, s.history, last) == Some(s.history.adds[j]) <==> !exists x :: OlderStart(s.history, chained, j, x)
  {
    var h, live := s.history, Live(s.history);
    var y :| 0 <= y < |h.live| && h.live[y] == j;
    var i := Find(live, chained);
    assert live[y].annotation == chained && Select(c.rules, live, last, 0) == i;
    OldestIsFound(h, c.cacheSize, chained);
    assert i >= 0 && h.live[i] <= j && live[i] == h.adds[h.live[i]];
    if h.live[i] < j {
      assert OlderStart(h, chained, j, i);
      assert i != y && live[i].id != live[y].id;
    } else {
      assert forall x | 0 <= x < |h.live| && h.adds[h.live[x]].annotation == chained :: h.live[i] <= h.live[x];
    }
  }
}
