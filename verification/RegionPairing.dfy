/** What whole runs of posts do to Grafana's regions. */
module RegionPairing {
  import opened Basics
  import opened Rewriting
  import opened TagExtraction
  import opened TagPreservation
  import opened RegionCache
  import opened Annotations

  /** Over any run, with any calls failing and any interleaving: no annotation is PATCHed twice, and
      every PATCH names one that an answered POST created. */
  lemma AtMostOnePatch(c: Config, evs: seq<Event>)
    ensures var s := Run(c, INITIAL, evs);
            && Safe(c, s)
            && (forall i, j | 0 <= i < j < |s.requests| && s.requests[i].PatchEnd? && s.requests[j].PatchEnd? ::
                  s.requests[i].id != s.requests[j].id)
            && forall i | 0 <= i < |s.requests| && s.requests[i].PatchEnd? :: s.requests[i].id in s.created
  {
    assert Upto(0) == [];
    RunIsSafe(c, INITIAL, evs);
  }

  // ----- Start and end pair up

  lemma {:induction false} AddsGrow(c: Config, s: System, evs: seq<Event>)
    requires InRange(s.history)
    ensures s.history.adds <= Run(c, s, evs).history.adds
    decreases |evs|
  {
    if evs == [] {
    } else {
      AddsGrow(c, Next(c, s, evs[0]), evs[1..]);
    }
  }

  /** The rules before `k` find no live start event for this text. */
  ghost predicate NoEarlierHit(c: Config, s: System, text: string, k: nat)
    requires InRange(s.history)
  {
    forall k', i | 0 <= k' < k :: !Hit(c.rules, Live(s.history), text, k', i)
  }

  /** The oldest live entry with the text that rule `k` makes is the one `Match` takes. */
  lemma MatchTakesOldest(c: Config, s: System, text: string, k: nat, m: nat)
    requires InRange(s.history) && m < |s.history.live|
    requires Hit(c.rules, Live(s.history), text, k, m) && NoEarlierHit(c, s, text, k)
    ensures var i := Find(Live(s.history), c.rules[k](text));
            i >= 0 && HitOf(c, s.history, text) == Some(Live(s.history)[i])
  {
    var live := Live(s.history);
    var i := Find(live, c.rules[k](text));
    assert FirstHit(c.rules, live, text, k, i);
    SelectIsFirstHit(c.rules, live, text);
  }

  /** The start event last cached in `s` is unclosed in `s'`, fewer than `cacheSize` Adds later, and
      rule `k` is the first with a live hit for the end event, making the start's text. */
  ghost predicate Pending(c: Config, s: System, s': System, end: string, k: nat)
    requires InRange(s'.history) && s.history.adds != []
  {
    var j := |s.history.adds| - 1;
    && j !in s'.history.returned
    && |s'.history.adds| - |s.history.adds| < c.cacheSize
    && k < |c.rules| && c.rules[k](end) == s.history.adds[j].annotation != end
    && NoEarlierHit(c, s', end, k)
  }

  /** `m` is the oldest live entry with this annotation. */
  predicate Oldest(h: History, annotation: string, m: nat)
    requires InRange(h)
  {
    && m in h.live && m < |h.adds| && h.adds[m].annotation == annotation
    && forall x | 0 <= x < |h.live| && h.adds[h.live[x]].annotation == annotation :: m <= h.live[x]
  }

  /** A post's first two steps: it is matched and its HTTP call ends with `reply`. */
  function Sent(c: Config, s: System, post: nat, annotation: string, time: int, reply: Reply): System
    requires InRange(s.history)
  {
    Next(c, Next(c, s, Begin(post, annotation, time)), Respond(post, reply))
  }

  /** The PATCH that closes `e`'s region at `time`. */
  function Closing(c: Config, end: string, time: int, e: Entry): (r: Request)
    requires Parse(end).Extracted?
    ensures r.PatchEnd? && r.id == e.id && r.timeEnd == Millis(time)
  {
    RequestFor(c, end, time, Some(e))
  }

  lemma HitCloses(c: Config, s: System, post: nat, end: string, time: int, reply: Reply, e: Entry)
    requires InRange(s.history) && Enabled(s, Begin(post, end, time)) && !reply.NotSent?
    requires HitOf(c, s.history, end) == Some(e)
    ensures Sent(c, s, post, end, time, reply).requests == s.requests + [Closing(c, end, time, e)]
  {
  }

  /** An unconsumed start with fewer than `cacheSize` newer Adds, in one state: its end event closes the
      oldest live start of its text. */
  lemma EndClosesSurvivor(c: Config, s: System, j: nat, post: nat, end: string, time: int, k: nat, reply: Reply)
    returns (m: nat)
    requires Safe(c, s) && j < |s.history.adds| && j !in s.history.returned
    requires |s.history.adds| - 1 - j < c.cacheSize
    requires k < |c.rules| && c.rules[k](end) == s.history.adds[j].annotation != end && NoEarlierHit(c, s, end, k)
    requires Enabled(s, Begin(post, end, time)) && !reply.NotSent?
    ensures Oldest(s.history, s.history.adds[j].annotation, m) && m <= j
    ensures Sent(c, s, post, end, time, reply).requests == s.requests + [Closing(c, end, time, s.history.adds[m])]
  {
    var h := s.history;
    var annotation := h.adds[j].annotation;
    Survives(h, c.cacheSize, j);
    var x :| 0 <= x < |h.live| && h.live[x] == j;
    MatchTakesOldest(c, s, end, k, x);
    OldestIsFound(h, c.cacheSize, annotation);
    m := h.live[Find(Live(h), annotation)];
    HitCloses(c, s, post, end, time, reply, h.adds[m]);
  }

  /** A start event is cached with id `n`, and any run follows that neither consumes it nor makes
      `cacheSize` further Adds. Then the end event sends one PATCH (if a request can be built at
      all), with the end's time, for the oldest live start of that text: `n`'s own entry when no
      older live entry shares the text. */
  lemma StartEndPairing(c: Config, s: System, evs: seq<Event>, s': System, post: nat, end: string, time: int,
                        k: nat, reply: Reply) returns (m: nat)
    requires Safe(c, s) && s.history.adds != [] && s' == Run(c, s, evs) && Pending(c, s, s', end, k)
    requires Enabled(s', Begin(post, end, time)) && !reply.NotSent?
    ensures InRange(s'.history)
    ensures var j := |s.history.adds| - 1;
            && Oldest(s'.history, s.history.adds[j].annotation, m) && m <= j
            && (m == j ==> s'.history.adds[m] == s.history.adds[j])
            && Sent(c, s', post, end, time, reply).requests
               == s'.requests + [Closing(c, end, time, s'.history.adds[m])]
  {
    RunIsSafe(c, s, evs);
    AddsGrow(c, s, evs);
    m := EndClosesSurvivor(c, s', |s.history.adds| - 1, post, end, time, k, reply);
  }

  lemma OldestIsFound(h: History, cacheSize: int, annotation: string)
    requires Accounted(h, cacheSize) && InRange(h)
    ensures var i := Find(Live(h), annotation); i >= 0 ==> Oldest(h, annotation, h.live[i])
  {
    var i := Find(Live(h), annotation);
    if i >= 0 {
      forall x | 0 <= x < |h.live| && h.adds[h.live[x]].annotation == annotation ensures h.live[i] <= h.live[x] {
        assert Live(h)[x].annotation == annotation;
        assert h.live[i] == (h.evicted + h.live)[|h.evicted| + i];
        assert h.live[x] == (h.evicted + h.live)[|h.evicted| + x];
      }
    }
  }

  // ----- A failed PATCH is never retried

  /** Neither the cache nor a post in flight holds this id any more. */
  predicate Orphan(s: System, id: int)
    requires InRange(s.history)
  {
    && id in s.created && NotCached(Live(s.history), id)
    && forall p | p in s.flights :: Owned(s.flights[p]) != Some(id)
  }

  /** However the call of a matched post ends, its annotation is out of reach afterwards. */
  lemma RespondOrphans(c: Config, s: System, post: nat, reply: Reply)
    requires Safe(c, s) && Enabled(s, Respond(post, reply)) && s.flights[post].request.PatchEnd?
    ensures Orphan(Next(c, s, Respond(post, reply)), s.flights[post].request.id)
  {
    var f := s.flights[post];
    assert FlightSafe(Live(s.history), f, s.created, s.requests);
    assert forall q | q in s.flights && q != post :: Apart(f, s.flights[q]);
  }

  /** No PATCH for `id` among the requests after the first `n`. */
  predicate NoPatchAfter(requests: seq<Request>, n: nat, id: int) {
    forall i | n <= i < |requests| && requests[i].PatchEnd? :: requests[i].id != id
  }

  lemma BeginKeepsOrphan(c: Config, s: System, ev: Event, id: int)
    requires InRange(s.history) && Orphan(s, id) && ev.Begin? && Enabled(s, ev)
    ensures Orphan(Next(c, s, ev), id)
  {
    var live, hit := Live(s.history), HitOf(c, s.history, ev.annotation);
    HistoryRefines(s.history, c.cacheSize, c.rules, Entry(0, ""), ev.annotation);
    RequestOwns(c, ev.annotation, ev.time, hit);
    var i := Select(c.rules, live, ev.annotation, 0);
    if i != -1 {
      StaysUncached(live, i, id);
    }
    assert Next(c, s, ev).created == s.created;
    assert Next(c, s, ev).flights
        == s.flights[ev.post := Sending(ev.annotation, RequestFor(c, ev.annotation, ev.time, hit))];
  }

  lemma StaysUncached(live: seq<Entry>, i: nat, id: int)
    requires i < |live| && NotCached(live, id)
    ensures NotCached(Without(live, i), id) && live[i].id != id
  {
    var live' := Without(live, i);
    assert forall k | 0 <= k < |live'| :: live'[k] == live[if k < i then k else k + 1];
  }

  lemma RespondKeepsOrphan(c: Config, s: System, ev: Event, id: int)
    requires InRange(s.history) && Orphan(s, id) && ev.Respond? && Enabled(s, ev)
    ensures Orphan(Next(c, s, ev), id) && NoPatchAfter(Next(c, s, ev).requests, |s.requests|, id)
  {
    assert Owned(s.flights[ev.post]) != Some(id);
  }

  lemma FinishKeepsOrphan(c: Config, s: System, ev: Event, id: int)
    requires InRange(s.history) && Orphan(s, id) && ev.Finish? && Enabled(s, ev)
    ensures Orphan(Next(c, s, ev), id)
  {
    var f, live, s' := s.flights[ev.post], Live(s.history), Next(c, s, ev);
    var e := Entry(f.id, f.annotation);
    HistoryRefines(s.history, c.cacheSize, c.rules, e, "");
    assert Owned(f) == Some(e.id) && s'.created == s.created && s'.flights == s.flights - {ev.post};
    AddedUncached(live, c.cacheSize, e, id);
  }

  lemma AddedUncached(live: seq<Entry>, cacheSize: int, e: Entry, id: int)
    requires NotCached(live, id) && e.id != id
    ensures NotCached(Added(live, cacheSize, e), id)
  {
  }

  /** An orphaned annotation stays one in every run, and no PATCH ever names it again: a region whose
      closing call failed is never closed. */
  lemma {:induction false} OrphanIsNeverPatched(c: Config, s: System, evs: seq<Event>, id: int)
    requires InRange(s.history) && Orphan(s, id)
    ensures var s' := Run(c, s, evs);
            && s.requests <= s'.requests && Orphan(s', id) && NoPatchAfter(s'.requests, |s.requests|, id)
    decreases |evs|
  {
    if evs == [] {
    } else {
      var ev := evs[0];
      if Enabled(s, ev) {
        match ev
        case Begin(_, _, _) => BeginKeepsOrphan(c, s, ev, id);
        case Respond(_, _) => RespondKeepsOrphan(c, s, ev, id);
        case Finish(_) => FinishKeepsOrphan(c, s, ev, id);
      }
      OrphanIsNeverPatched(c, Next(c, s, ev), evs[1..], id);
    }
  }

  // ----- What the requests of a run say about each other

  /** The request carries the text and tags of this notification. */
  predicate SentFor(c: Config, annotation: string, r: Request) {
    var plain := RequestFor(c, annotation, 0, None);
    r.text == plain.text && r.tags == plain.tags
  }

  /** Some rule rewrites the one text into the other. */
  ghost predicate Ends(c: Config, end: string, start: string) {
    exists k | 0 <= k < |c.rules| :: c.rules[k](end) == start != end
  }

  /** This text ends the region of the annotation that a PATCH names. */
  ghost predicate ClosesRightly(c: Config, created: Server, text: string, r: Request) {
    r.PatchEnd? ==> r.id in created && Ends(c, text, created[r.id].annotation)
  }

  /** The annotation points back to the POST that made it. */
  predicate Posted(requests: seq<Request>, texts: seq<string>, made: Creation)
    requires |texts| == |requests|
  {
    made.request < |requests| && requests[made.request].PostNew? && texts[made.request] == made.annotation
  }

  ghost predicate Entered(c: Config, requests: seq<Request>, texts: seq<string>, created: Server, i: int)
    requires 0 <= i < |requests| == |texts|
  {
    && SentFor(c, texts[i], requests[i]) && ClosesRightly(c, created, texts[i], requests[i])
    && (requests[i].PatchEnd? ==> created[requests[i].id].request < i)
  }

  /** What is on record about the requests sent and the annotations created. */
  ghost predicate Recorded(c: Config, requests: seq<Request>, texts: seq<string>, created: Server) {
    && |texts| == |requests|
    && (forall id | id in created :: Posted(requests, texts, created[id]))
    && (forall i | 0 <= i < |requests| :: Entered(c, requests, texts, created, i))
  }

  ghost predicate FlightTraced(c: Config, created: Server, f: Flight) {
    f.Sending? ==> SentFor(c, f.annotation, f.request) && ClosesRightly(c, created, f.annotation, f.request)
  }

  ghost predicate Traced(c: Config, s: System) {
    && Recorded(c, s.requests, s.texts, s.created)
    && forall p | p in s.flights :: FlightTraced(c, s.created, s.flights[p])
  }

  lemma BeginIsTraced(c: Config, s: System, ev: Event)
    requires Safe(c, s) && Traced(c, s) && ev.Begin? && Enabled(s, ev)
    ensures Traced(c, Next(c, s, ev))
  {
    var live, hit := Live(s.history), HitOf(c, s.history, ev.annotation);
    var r := RequestFor(c, ev.annotation, ev.time, hit);
    RequestOwns(c, ev.annotation, ev.time, hit);
    if hit.Some? {
      var i := Select(c.rules, live, ev.annotation, 0);
      SelectIsFirstHit(c.rules, live, ev.annotation);
      var k :| FirstHit(c.rules, live, ev.annotation, k, i);
      assert Open(s.created, s.requests, live[i].id) && s.created[live[i].id].annotation == live[i].annotation;
      assert c.rules[k](ev.annotation) == live[i].annotation;
    }
    assert FlightTraced(c, s.created, Sending(ev.annotation, r));
    assert Next(c, s, ev).flights == s.flights[ev.post := Sending(ev.annotation, r)];
  }

  /** One more request is entered. */
  lemma EnterKeeps(c: Config, requests: seq<Request>, texts: seq<string>, created: Server, r: Request, text: string)
    requires Recorded(c, requests, texts, created)
    requires SentFor(c, text, r) && ClosesRightly(c, created, text, r)
    ensures Recorded(c, requests + [r], texts + [text], created)
  {
    var requests', texts', n := requests + [r], texts + [text], |requests|;
    forall id | id in created ensures Posted(requests', texts', created[id]) {
      assert Posted(requests, texts, created[id]);
    }
    forall i | 0 <= i < n + 1 ensures Entered(c, requests', texts', created, i) {
      if i < n {
        assert Entered(c, requests, texts, created, i);
      } else {
        assert r.PatchEnd? ==> Posted(requests, texts, created[r.id]);
      }
    }
  }

  /** One more annotation is created. */
  lemma CreateKeeps(c: Config, requests: seq<Request>, texts: seq<string>, created: Server, id: int, made: Creation)
    requires Recorded(c, requests, texts, created) && id !in created && Posted(requests, texts, made)
    ensures Recorded(c, requests, texts, created[id := made])
    ensures forall f | FlightTraced(c, created, f) :: FlightTraced(c, created[id := made], f)
  {
    var created' := created[id := made];
    forall i | 0 <= i < |requests| ensures Entered(c, requests, texts, created', i) {
      assert Entered(c, requests, texts, created, i);
    }
    forall x | x in created' ensures Posted(requests, texts, created'[x]) {
      if x != id {
        assert Posted(requests, texts, created[x]);
      }
    }
  }

  lemma RespondIsTraced(c: Config, s: System, ev: Event)
    requires InRange(s.history) && Traced(c, s) && ev.Respond? && Enabled(s, ev)
    ensures Traced(c, Next(c, s, ev))
  {
    var s', f := Next(c, s, ev), s.flights[ev.post];
    assert FlightTraced(c, s.created, f);
    EnterKeeps(c, s.requests, s.texts, s.created, f.request, f.annotation);
    if ev.reply.Accepted? && f.request.PostNew? {
      var made := Creation(f.annotation, f.request.time, |s.requests|);
      CreateKeeps(c, s'.requests, s'.texts, s.created, ev.reply.id, made);
      assert s'.flights == s.flights[ev.post := Adding(f.annotation, ev.reply.id)];
    } else {
      assert s'.flights == s.flights - {ev.post} && s'.created == s.created;
    }
  }

  lemma FinishIsTraced(c: Config, s: System, ev: Event)
    requires InRange(s.history) && Traced(c, s) && ev.Finish? && Enabled(s, ev)
    ensures Traced(c, Next(c, s, ev))
  {
    var s' := Next(c, s, ev);
    assert s'.flights == s.flights - {ev.post} && s'.created == s.created && s'.requests == s.requests;
  }

  lemma {:induction false} RunIsTraced(c: Config, s: System, evs: seq<Event>)
    requires Safe(c, s) && Traced(c, s)
    ensures Traced(c, Run(c, s, evs))
    decreases |evs|
  {
    if evs == [] {
    } else {
      var ev := evs[0];
      StepIsSafe(c, s, ev);
      if Enabled(s, ev) {
        match ev
        case Begin(_, _, _) => BeginIsTraced(c, s, ev);
        case Respond(_, _) => RespondIsTraced(c, s, ev);
        case Finish(_) => FinishIsTraced(c, s, ev);
      }
      RunIsTraced(c, Next(c, s, ev), evs[1..]);
    }
  }

  /** Every PATCH of every run is right: its notification is rewritten by some rule into the one that an
      earlier POST of the run was sent for, and that POST created the annotation it names. */
  lemma ClosingsAreRight(c: Config, evs: seq<Event>, i: nat)
    requires var s := Run(c, INITIAL, evs); i < |s.requests| && s.requests[i].PatchEnd?
    ensures var s := Run(c, INITIAL, evs);
            && |s.texts| == |s.requests| && s.requests[i].id in s.created
            && var j := s.created[s.requests[i].id].request;
            && j < i && s.requests[j].PostNew? && Ends(c, s.texts[i], s.texts[j])
            && SentFor(c, s.texts[i], s.requests[i]) && SentFor(c, s.texts[j], s.requests[j])
  {
    AtMostOnePatch(c, []);
    assert Run(c, INITIAL, []) == INITIAL;
    RunIsTraced(c, INITIAL, evs);
    var s := Run(c, INITIAL, evs);
    assert Entered(c, s.requests, s.texts, s.created, i);
    var made := s.created[s.requests[i].id];
    assert Posted(s.requests, s.texts, made);
    assert Entered(c, s.requests, s.texts, s.created, made.request);
  }

  lemma SameTagsSent(c: Config, rule: LiteralRule, end: string, start: string, r: Request, r': Request)
    requires rule.WellFormed() && rule.Apply(end) == start
    requires SentFor(c, end, r) && SentFor(c, start, r')
    ensures r.tags == r'.tags
  {
    RewriteKeepsTags(rule, end);
  }

  /** In every run, the PATCH that closes a region and the POST that opened it were sent with the same
      tags, whenever a literal rule rewrites the one notification into the other. */
  lemma RegionKeepsTags(c: Config, evs: seq<Event>, i: nat, rule: LiteralRule)
    requires var s := Run(c, INITIAL, evs); i < |s.requests| && s.requests[i].PatchEnd?
    requires rule.WellFormed()
    ensures var s := Run(c, INITIAL, evs);
            && |s.texts| == |s.requests| && s.requests[i].id in s.created
            && var j := s.created[s.requests[i].id].request;
            && j < i && s.requests[j].PostNew?
            && (rule.Apply(s.texts[i]) == s.texts[j] ==> s.requests[i].tags == s.requests[j].tags)
  {
    ClosingsAreRight(c, evs, i);
    var s := Run(c, INITIAL, evs);
    var j := s.created[s.requests[i].id].request;
    if rule.Apply(s.texts[i]) == s.texts[j] {
      SameTagsSent(c, rule, s.texts[i], s.texts[j], s.requests[i], s.requests[j]);
    }
  }

  // ----- Regions are well ordered

  /** Posts begin in the order of their times, none before `now`. */
  predicate InTimeOrder(evs: seq<Event>, now: int)
    decreases |evs|
  {
    evs == [] ||
    match evs[0]
    case Begin(_, _, time) => now <= time && InTimeOrder(evs[1..], time)
    case _ => InTimeOrder(evs[1..], now)
  }

  predicate RequestOrdered(created: Server, r: Request, now: int) {
    match r
    case PostNew(_, _, time) => time <= Millis(now)
    case PatchEnd(id, _, _, timeEnd) => id in created && created[id].time <= timeEnd
  }

  predicate Ordered(s: System, now: int) {
    && (forall id | id in s.created :: s.created[id].time <= Millis(now))
    && (forall p | p in s.flights && s.flights[p].Sending? :: RequestOrdered(s.created, s.flights[p].request, now))
    && (forall i | 0 <= i < |s.requests| && s.requests[i].PatchEnd? :: RequestOrdered(s.created, s.requests[i], now))
  }

  lemma MillisMonotone(a: int, b: int)
    requires a <= b
    ensures Millis(a) <= Millis(b)
  {
  }

  lemma BeginKeepsOrder(c: Config, s: System, ev: Event, now: int)
    requires Safe(c, s) && Ordered(s, now) && ev.Begin? && Enabled(s, ev) && now <= ev.time
    ensures Ordered(Next(c, s, ev), ev.time)
  {
    var hit := HitOf(c, s.history, ev.annotation);
    var r := RequestFor(c, ev.annotation, ev.time, hit);
    MillisMonotone(now, ev.time);
    RequestOwns(c, ev.annotation, ev.time, hit);
    if hit.Some? {
      assert Open(s.created, s.requests, hit.value.id);
    }
    assert RequestOrdered(s.created, r, ev.time);
    forall r' | RequestOrdered(s.created, r', now) ensures RequestOrdered(s.created, r', ev.time) {
    }
  }

  lemma RespondKeepsOrder(c: Config, s: System, ev: Event, now: int)
    requires Safe(c, s) && Ordered(s, now) && ev.Respond? && Enabled(s, ev)
    ensures Ordered(Next(c, s, ev), now)
  {
    var s', f := Next(c, s, ev), s.flights[ev.post];
    assert RequestOrdered(s.created, f.request, now);
    forall r | RequestOrdered(s.created, r, now) ensures RequestOrdered(s'.created, r, now) {
    }
    assert forall i | 0 <= i < |s'.requests| :: 
        s'.requests[i] == if i < |s.requests| then s.requests[i] else f.request;
  }

  lemma {:induction false} RunKeepsOrder(c: Config, s: System, evs: seq<Event>, now: int) returns (now': int)
    requires Safe(c, s) && Ordered(s, now) && InTimeOrder(evs, now)
    ensures Ordered(Run(c, s, evs), now')
    decreases |evs|
  {
    if evs == [] {
      now' := now;
    } else {
      var s' := Next(c, s, evs[0]);
      StepIsSafe(c, s, evs[0]);
      match evs[0]
      case Begin(_, _, time) =>
        if Enabled(s, evs[0]) {
          BeginKeepsOrder(c, s, evs[0], now);
        } else {
          MillisMonotone(now, time);
        }
        now' := RunKeepsOrder(c, s', evs[1..], time);
      case Respond(_, _) =>
        if Enabled(s, evs[0]) { RespondKeepsOrder(c, s, evs[0], now); }
        now' := RunKeepsOrder(c, s', evs[1..], now);
      case Finish(_) =>
        now' := RunKeepsOrder(c, s', evs[1..], now);
    }
  }

  /** When posts begin in the order of their times, every closed region starts no later than it ends,
      after truncation to milliseconds, however the posts overlap. */
  lemma RegionsWellOrdered(c: Config, evs: seq<Event>, start: int)
    requires InTimeOrder(evs, start)
    ensures var s := Run(c, INITIAL, evs);
            forall i | 0 <= i < |s.requests| && s.requests[i].PatchEnd? ::
              s.requests[i].id in s.created && s.created[s.requests[i].id].time <= s.requests[i].timeEnd
  {
    AtMostOnePatch(c, []);
    var now := RunKeepsOrder(c, INITIAL, evs, start);
    var s := Run(c, INITIAL, evs);
    assert forall i | 0 <= i < |s.requests| && s.requests[i].PatchEnd? :: RequestOrdered(s.created, s.requests[i], now);
  }
}
