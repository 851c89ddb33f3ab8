/** `Post` as a protocol: any number of posts in flight against one Grafana server. A post is three
    atomic steps, matching, the HTTP call, and caching, and the steps of different posts interleave. */
module Annotations {
  import opened Basics
  import opened Rewriting
  import opened TagExtraction
  import opened RegionCache

  datatype Config = Config(cacheSize: int, rules: seq<Rewrite>, tags: seq<string>)

  datatype Request =
    | PostNew(text: string, tags: seq<string>, time: int)
    | PatchEnd(id: int, text: string, tags: seq<string>, timeEnd: int)

  /** How the HTTP call ends; `NotSent` is a failure to build the request. */
  datatype Reply = NotSent | TransportError | BadStatus(code: int) | UnreadableBody | MalformedBody | Accepted(id: int)

  /** Nanoseconds to milliseconds; Go's division truncates toward zero. */
  function Millis(nanos: int): (m: int)
    ensures nanos >= 0 ==> 0 <= m * 1_000_000 <= nanos < (m + 1) * 1_000_000
    ensures nanos < 0 ==> (m - 1) * 1_000_000 < nanos <= m * 1_000_000 <= 0
  {
    if nanos >= 0 then nanos / 1_000_000 else -(-nanos / 1_000_000)
  }

  // ----- mergeTags

  function Merge(list: seq<string>, more: seq<string>): seq<string>
    decreases |more|
  {
    if more == [] then list
    else Merge(if more[0] in list then list else list + [more[0]], more[1..])
  }

  lemma {:induction false} MergeMeaning(list: seq<string>, more: seq<string>)
    requires forall i, j | 0 <= i < j < |list| :: list[i] != list[j]
    ensures var r := Merge(list, more);
            && list <= r
            && (forall i, j | 0 <= i < j < |r| :: r[i] != r[j])
            && forall t :: t in r <==> t in list || t in more
    decreases |more|
  {
    if more == [] {
    } else {
      MergeMeaning(if more[0] in list then list else list + [more[0]], more[1..]);
    }
  }

  lemma {:induction false} MergeInTwo(list: seq<string>, more: seq<string>, rest: seq<string>)
    ensures Merge(list, more + rest) == Merge(Merge(list, more), rest)
    decreases |more|
  {
    if more == [] {
      assert more + rest == rest;
    } else {
      assert (more + rest)[0] == more[0] && (more + rest)[1..] == more[1..] + rest;
      MergeInTwo(if more[0] in list then list else list + [more[0]], more[1..], rest);
    }
  }

  predicate FirstAt(s: seq<string>, t: string, p: nat) { p < |s| && s[p] == t && t !in s[..p] }

  /** `r` lists its elements in the order of their first occurrences in `s`. */
  ghost predicate OrderedAsIn(s: seq<string>, r: seq<string>) {
    forall i, j, p: nat, q: nat | 0 <= i < j < |r| && FirstAt(s, r[i], p) && FirstAt(s, r[j], q) :: p < q
  }

  /** What is merged before the j-th tag occurs no later than that tag. */
  lemma MergedBefore(more: seq<string>, i: nat, j: nat, q: nat)
    requires var r := Merge([], more); i < j < |r| && FirstAt(more, r[j], q)
    ensures Merge([], more)[i] in more[..q + 1]
  {
    var r, front := Merge([], more), more[..q + 1];
    var r' := Merge([], front);
    assert more == front + more[q + 1..];
    MergeInTwo([], front, more[q + 1..]);
    MergeMeaning([], front);
    MergeMeaning(r', more[q + 1..]);
    MergeMeaning([], more);
    assert front[q] in r';
    var j' :| 0 <= j' < |r'| && r'[j'] == r[j];
    assert r[j'] == r'[j'] && r'[i] == r[i];
  }

  /** Merged tags stand in the order of their first occurrences. */
  lemma MergeOrder(more: seq<string>)
    ensures OrderedAsIn(more, Merge([], more))
  {
    var r := Merge([], more);
    forall i, j, p: nat, q: nat | 0 <= i < j < |r| && FirstAt(more, r[i], p) && FirstAt(more, r[j], q)
      ensures p < q
    {
      MergedBefore(more, i, j, q);
      MergeMeaning([], more);
      var k :| 0 <= k < q + 1 && more[..q + 1][k] == r[i];
      assert forall l | 0 <= l < p :: more[..p][l] == more[l];
    }
  }

  function RequestFor(c: Config, annotation: string, time: int, hit: Option<Entry>): Request {
    match Parse(annotation)
    case Panicked => PostNew("", [], 0)
    case Extracted(text, tags) =>
      var merged := Merge([], c.tags + tags);
      match hit
      case None => PostNew(text, merged, Millis(time))
      case Some(e) => PatchEnd(e.id, text, merged, Millis(time))
  }

  /** What is sent: the text without its tags, the configured and then the extracted tags once each, in
      the order of their first occurrences, and the time as the start of a new annotation or the end of
      the matched one. */
  lemma RequestMeaning(c: Config, annotation: string, time: int, hit: Option<Entry>)
    requires Parse(annotation).Extracted?
    ensures var r, tags := RequestFor(c, annotation, time, hit), Parse(annotation).tags;
            && Decomposes(annotation, tags, r.text)
            && (forall t :: t in r.tags <==> t in c.tags || t in tags)
            && (forall i, j | 0 <= i < j < |r.tags| :: r.tags[i] != r.tags[j])
            && OrderedAsIn(c.tags + tags, r.tags)
            && (if hit.None? then r.PostNew? && r.time == Millis(time)
                else r.PatchEnd? && r.id == hit.value.id && r.timeEnd == Millis(time))
  {
    ParseSound(annotation);
    var tags := Parse(annotation).tags;
    MergeMeaning([], c.tags + tags);
    MergeOrder(c.tags + tags);
    assert forall t :: t in c.tags + tags <==> t in c.tags || t in tags;
  }

  // ----- The system

  datatype Flight =
    | Sending(annotation: string, request: Request)
    | Adding(annotation: string, id: int)

  /** An annotation that an answered POST created on the server, and the position of that POST. */
  datatype Creation = Creation(annotation: string, time: int, request: nat)

  datatype System = System(
    history: History,
    flights: map<nat, Flight>,
    requests: seq<Request>,
    texts: seq<string>,  // texts[i] is the notification that requests[i] was sent for
    created: map<int, Creation>
  )

  const INITIAL := System(EMPTY, map[], [], [], map[])

  datatype Event =
    | Begin(post: nat, annotation: string, time: int)
    | Respond(post: nat, reply: Reply)
    | Finish(post: nat)

  function HitOf(c: Config, h: History, annotation: string): Option<Entry>
    requires InRange(h)
  {
    var i := Select(c.rules, Live(h), annotation, 0);
    if i == -1 then None else Some(Live(h)[i])
  }

  /** Grafana never issues an id twice, nor the matcher's "no match" value. */
  predicate Fresh(s: System, id: int) { id !in s.created && id != -1 }

  predicate Enabled(s: System, ev: Event) {
    match ev
    case Begin(post, annotation, _) => post !in s.flights && Parse(annotation).Extracted?
    case Respond(post, reply) =>
      && post in s.flights && s.flights[post].Sending?
      && (reply.Accepted? && s.flights[post].request.PostNew? ==> Fresh(s, reply.id))
    case Finish(post) => post in s.flights && s.flights[post].Adding?
  }

  /** One atomic step; an event that is not enabled leaves the system as it is. */
  function Next(c: Config, s: System, ev: Event): (s': System)
    requires InRange(s.history)
    ensures InRange(s'.history)
  {
    if !Enabled(s, ev) then s else
    match ev
    case Begin(post, annotation, time) =>
      var request := RequestFor(c, annotation, time, HitOf(c, s.history, annotation));
      s.(history := MatchIn(s.history, c.rules, annotation),
         flights := s.flights[post := Sending(annotation, request)])
    case Respond(post, reply) =>
      var f := s.flights[post];
      var landed := s.(flights := s.flights - {post},
                       requests := if reply.NotSent? then s.requests else s.requests + [f.request],
                       texts := if reply.NotSent? then s.texts else s.texts + [f.annotation]);
      if reply.Accepted? && f.request.PostNew?
      then landed.(flights := s.flights[post := Adding(f.annotation, reply.id)],
                   created := s.created[reply.id := Creation(f.annotation, f.request.time, |s.requests|)])
      else landed
    case Finish(post) =>
      var f := s.flights[post];
      s.(history := AddTo(s.history, c.cacheSize, Entry(f.id, f.annotation)), flights := s.flights - {post})
  }

  function Run(c: Config, s: System, evs: seq<Event>): (s': System)
    requires InRange(s.history)
    ensures InRange(s'.history)
    decreases |evs|
  {
    if evs == [] then s else Run(c, Next(c, s, evs[0]), evs[1..])
  }

  // ----- At most one PATCH per annotation

  type Server = map<int, Creation>
  type Flights = map<nat, Flight>

  /** The annotation id a post in flight owns: the one it will close, or the one it will cache. */
  function Owned(f: Flight): Option<int> {
    match f
    case Sending(_, PatchEnd(id, _, _, _)) => Some(id)
    case Sending(_, _) => None
    case Adding(_, id) => Some(id)
  }

  /** Created on the server and not yet named by any PATCH. */
  predicate Open(created: Server, requests: seq<Request>, id: int) {
    id in created && forall i | 0 <= i < |requests| && requests[i].PatchEnd? :: requests[i].id != id
  }

  predicate CacheSafe(live: seq<Entry>, created: Server, requests: seq<Request>) {
    && (forall i | 0 <= i < |live| ::
          Open(created, requests, live[i].id) && created[live[i].id].annotation == live[i].annotation)
    && (forall i, j | 0 <= i < j < |live| :: live[i].id != live[j].id)
  }

  predicate NotCached(live: seq<Entry>, id: int) { forall i | 0 <= i < |live| :: live[i].id != id }

  predicate FlightSafe(live: seq<Entry>, f: Flight, created: Server, requests: seq<Request>) {
    Owned(f).Some? ==>
      && Open(created, requests, Owned(f).value)
      && NotCached(live, Owned(f).value)
      && (f.Adding? ==> created[f.id].annotation == f.annotation)
  }

  predicate Apart(f: Flight, g: Flight) { Owned(f).Some? ==> Owned(f) != Owned(g) }

  predicate FlightsSafe(live: seq<Entry>, flights: Flights, created: Server, requests: seq<Request>) {
    && (forall p | p in flights :: FlightSafe(live, flights[p], created, requests))
    && (forall p, q | p in flights && q in flights && p != q :: Apart(flights[p], flights[q]))
  }

  predicate PatchesSafe(created: Server, requests: seq<Request>) {
    && -1 !in created
    && (forall i | 0 <= i < |requests| && requests[i].PatchEnd? :: requests[i].id in created)
    && (forall i, j | 0 <= i < j < |requests| && requests[i].PatchEnd? && requests[j].PatchEnd? ::
          requests[i].id != requests[j].id)
  }

  /** Cached ids are pairwise distinct and each names an annotation that an answered POST of the
      cached text created and no PATCH has touched; every id is in at most one PATCH. */
  ghost predicate Safe(c: Config, s: System) {
    && InRange(s.history) && Accounted(s.history, c.cacheSize)
    && CacheSafe(Live(s.history), s.created, s.requests)
    && FlightsSafe(Live(s.history), s.flights, s.created, s.requests)
    && PatchesSafe(s.created, s.requests)
  }

  /** What a post takes off, the cache or another post no longer owns. */
  lemma LandKeepsSafe(live: seq<Entry>, flights: Flights, created: Server, requests: seq<Request>, p: nat)
    requires p in flights && FlightsSafe(live, flights, created, requests)
    ensures FlightsSafe(live, flights - {p}, created, requests)
  {
  }

  lemma TakeOffKeepsSafe(live: seq<Entry>, flights: Flights, created: Server, requests: seq<Request>,
                         p: nat, f: Flight)
    requires FlightsSafe(live, flights, created, requests) && FlightSafe(live, f, created, requests)
    requires forall q | q in flights && q != p :: Apart(f, flights[q]) && Apart(flights[q], f)
    ensures FlightsSafe(live, flights[p := f], created, requests)
  {
  }

  lemma UncacheKeepsSafe(live: seq<Entry>, flights: Flights, created: Server, requests: seq<Request>, i: nat)
    requires i < |live| && CacheSafe(live, created, requests) && FlightsSafe(live, flights, created, requests)
    ensures CacheSafe(Without(live, i), created, requests) && NotCached(Without(live, i), live[i].id)
    ensures FlightsSafe(Without(live, i), flights, created, requests)
  {
    var live' := Without(live, i);
    assert forall k | 0 <= k < |live'| :: live'[k] == live[if k < i then k else k + 1];
    forall p | p in flights ensures FlightSafe(live', flights[p], created, requests) {
      assert FlightSafe(live, flights[p], created, requests);
    }
  }

  /** The matched entry's id moves from the cache to the post. */
  lemma MatchedKeepsSafe(live: seq<Entry>, flights: Flights, created: Server, requests: seq<Request>,
                         i: nat, p: nat, f: Flight)
    requires i < |live| && CacheSafe(live, created, requests) && FlightsSafe(live, flights, created, requests)
    requires f.Sending? && Owned(f) == Some(live[i].id)
    ensures CacheSafe(Without(live, i), created, requests)
    ensures FlightsSafe(Without(live, i), flights[p := f], created, requests)
  {
    UncacheKeepsSafe(live, flights, created, requests, i);
    forall q | q in flights ensures Owned(flights[q]) != Some(live[i].id) {
      assert FlightSafe(live, flights[q], created, requests);
    }
    TakeOffKeepsSafe(Without(live, i), flights, created, requests, p, f);
  }

  lemma RequestOwns(c: Config, annotation: string, time: int, hit: Option<Entry>)
    requires Parse(annotation).Extracted?
    ensures var request := RequestFor(c, annotation, time, hit);
            && request.PatchEnd? == hit.Some?
            && Owned(Sending(annotation, request)) == if hit.Some? then Some(hit.value.id) else None
  {
  }

  lemma BeginKeepsSafe(c: Config, s: System, ev: Event)
    requires Safe(c, s) && ev.Begin? && Enabled(s, ev)
    ensures Safe(c, Next(c, s, ev))
  {
    var live := Live(s.history);
    var i := Select(c.rules, live, ev.annotation, 0);
    var hit := HitOf(c, s.history, ev.annotation);
    var f := Sending(ev.annotation, RequestFor(c, ev.annotation, ev.time, hit));
    RequestOwns(c, ev.annotation, ev.time, hit);
    MatchKeepsAccount(s.history, c.cacheSize, c.rules, ev.annotation);
    HistoryRefines(s.history, c.cacheSize, c.rules, Entry(0, ""), ev.annotation);
    if i != -1 {
      MatchedKeepsSafe(live, s.flights, s.created, s.requests, i, ev.post, f);
    } else {
      TakeOffKeepsSafe(live, s.flights, s.created, s.requests, ev.post, f);
    }
  }

  lemma RequestKeepsSafe(live: seq<Entry>, flights: Flights, created: Server, requests: seq<Request>, r: Request)
    requires CacheSafe(live, created, requests) && FlightsSafe(live, flights, created, requests)
    requires PatchesSafe(created, requests)
    requires r.PatchEnd? ==>
               && Open(created, requests, r.id) && NotCached(live, r.id)
               && forall p | p in flights :: Owned(flights[p]) != Some(r.id)
    ensures CacheSafe(live, created, requests + [r]) && FlightsSafe(live, flights, created, requests + [r])
    ensures PatchesSafe(created, requests + [r])
  {
    var requests' := requests + [r];
    forall id | Open(created, requests, id) && (r.PatchEnd? ==> r.id != id) ensures Open(created, requests', id) {
    }
    forall p | p in flights ensures FlightSafe(live, flights[p], created, requests') {
      assert FlightSafe(live, flights[p], created, requests);
    }
  }

  lemma CreateKeepsSafe(live: seq<Entry>, flights: Flights, created: Server, requests: seq<Request>,
                        p: nat, id: int, made: Creation)
    requires CacheSafe(live, created, requests) && FlightsSafe(live, flights, created, requests)
    requires PatchesSafe(created, requests)
    requires id !in created && id != -1
    ensures var created' := created[id := made];
            && CacheSafe(live, created', requests)
            && FlightsSafe(live, flights[p := Adding(made.annotation, id)], created', requests)
            && PatchesSafe(created', requests)
  {
    var created', f := created[id := made], Adding(made.annotation, id);
    forall q | q in flights ensures FlightSafe(live, flights[q], created', requests) && Owned(flights[q]) != Some(id) {
      assert FlightSafe(live, flights[q], created, requests);
    }
    assert FlightsSafe(live, flights, created', requests);
    forall i | 0 <= i < |live| ensures live[i].id != id {
      assert Open(created, requests, live[i].id);
    }
    TakeOffKeepsSafe(live, flights, created', requests, p, f);
  }

  lemma RespondKeepsSafe(c: Config, s: System, ev: Event)
    requires Safe(c, s) && ev.Respond? && Enabled(s, ev)
    ensures Safe(c, Next(c, s, ev))
  {
    var live, f, landed := Live(s.history), s.flights[ev.post], s.flights - {ev.post};
    var requests' := if ev.reply.NotSent? then s.requests else s.requests + [f.request];
    LandKeepsSafe(live, s.flights, s.created, s.requests, ev.post);
    assert FlightSafe(live, f, s.created, s.requests);
    assert forall q | q in landed :: Apart(f, s.flights[q]);
    RequestKeepsSafe(live, landed, s.created, s.requests, f.request);
    if ev.reply.Accepted? && f.request.PostNew? {
      CreateKeepsSafe(live, landed, s.created, requests', ev.post, ev.reply.id,
                      Creation(f.annotation, f.request.time, |s.requests|));
      assert landed[ev.post := Adding(f.annotation, ev.reply.id)]
          == s.flights[ev.post := Adding(f.annotation, ev.reply.id)];
    }
  }

  lemma CacheKeepsSafe(live: seq<Entry>, flights: Flights, created: Server, requests: seq<Request>,
                       cacheSize: int, e: Entry)
    requires CacheSafe(live, created, requests) && FlightsSafe(live, flights, created, requests)
    requires Open(created, requests, e.id) && created[e.id].annotation == e.annotation && NotCached(live, e.id)
    requires forall p | p in flights :: Owned(flights[p]) != Some(e.id)
    ensures CacheSafe(Added(live, cacheSize, e), created, requests)
    ensures FlightsSafe(Added(live, cacheSize, e), flights, created, requests)
  {
    var live' := Added(live, cacheSize, e);
    forall p | p in flights ensures FlightSafe(live', flights[p], created, requests) {
      assert FlightSafe(live, flights[p], created, requests);
    }
  }

  lemma FinishKeepsSafe(c: Config, s: System, ev: Event)
    requires Safe(c, s) && ev.Finish? && Enabled(s, ev)
    ensures Safe(c, Next(c, s, ev))
  {
    var live, f, landed := Live(s.history), s.flights[ev.post], s.flights - {ev.post};
    var e := Entry(f.id, f.annotation);
    AddKeepsAccount(s.history, c.cacheSize, e);
    HistoryRefines(s.history, c.cacheSize, c.rules, e, "");
    LandKeepsSafe(live, s.flights, s.created, s.requests, ev.post);
    assert FlightSafe(live, f, s.created, s.requests);
    assert forall q | q in landed :: Apart(f, s.flights[q]);
    CacheKeepsSafe(live, landed, s.created, s.requests, c.cacheSize, e);
  }

  lemma StepIsSafe(c: Config, s: System, ev: Event)
    requires Safe(c, s)
    ensures Safe(c, Next(c, s, ev))
  {
    if Enabled(s, ev) {
      match ev
      case Begin(_, _, _) => BeginKeepsSafe(c, s, ev);
      case Respond(_, _) => RespondKeepsSafe(c, s, ev);
      case Finish(_) => FinishKeepsSafe(c, s, ev);
    }
  }

  lemma {:induction false} RunIsSafe(c: Config, s: System, evs: seq<Event>)
    requires Safe(c, s)
    ensures Safe(c, Run(c, s, evs))
    decreases |evs|
  {
    if evs == [] {
    } else {
      StepIsSafe(c, s, evs[0]);
      RunIsSafe(c, Next(c, s, evs[0]), evs[1..]);
    }
  }
}
