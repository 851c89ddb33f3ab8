/** `Post` as one call: the object that owns the matcher and talks to the HTTP client. */
module Annotators {
  import opened Basics
  import opened Rewriting
  import opened TagExtraction
  import opened RegionCache
  import opened RegionMatching
  import opened Annotations

  datatype Result = Crashed | Posted(id: int) | Failed(reply: Reply)

  /** What `Match` reports and leaves; it answers -1 for "no match", so a matched entry with that id
      counts as none. */
  function Matched(c: Config, live: seq<Entry>, annotation: string): (Option<Entry>, seq<Entry>) {
    var i := Select(c.rules, live, annotation, 0);
    if i == -1 then (None, live)
    else (if live[i].id == -1 then None else Some(live[i]), Without(live, i))
  }

  /** What the reply to `request` leads to; only an unmatched, accepted post is cached. */
  function Answered(c: Config, live: seq<Entry>, annotation: string, request: Request, reply: Reply)
    : (seq<Entry>, seq<Request>, Result)
  {
    match reply
    case NotSent => (live, [], Failed(reply))
    case Accepted(id) =>
      (if request.PostNew? then Added(live, c.cacheSize, Entry(id, annotation)) else live, [request], Posted(id))
    case _ => (live, [request], Failed(reply))
  }

  /** The whole effect of one undisturbed call: live entries, requests sent, result. */
  function PostOutcome(c: Config, live: seq<Entry>, annotation: string, time: int, reply: Reply)
    : (seq<Entry>, seq<Request>, Result)
  {
    if Parse(annotation).Panicked? then (live, [], Crashed) else
    var (hit, live') := Matched(c, live, annotation);
    Answered(c, live', annotation, RequestFor(c, annotation, time, hit), reply)
  }

  /** The texts that `Extract` panics on. */
  ghost predicate WhollyBlocks(s: string) { exists tags :: AllClean(tags) && s == Render(tags) }

  /** The result of a call rests on its text and the reply alone, matched or not. */
  ghost predicate Answers(annotation: string, reply: Reply, r: Result) {
    && (r.Crashed? <==> WhollyBlocks(annotation))
    && (forall id :: r == Posted(id) <==> !WhollyBlocks(annotation) && reply == Accepted(id))
    && (r.Failed? ==> r.reply == reply)
  }

  lemma PanicsIffWhollyBlocks(s: string)
    ensures Parse(s).Panicked? <==> WhollyBlocks(s)
  {
    ParseIffPromised(s, Panicked);
  }

  lemma AnsweredIs(c: Config, live: seq<Entry>, annotation: string, request: Request, reply: Reply)
    ensures var (live', requests, r) := Answered(c, live, annotation, request, reply);
            && !r.Crashed? && (forall id :: r == Posted(id) <==> reply == Accepted(id))
            && (r.Failed? ==> r.reply == reply)
            && requests == (if reply.NotSent? then [] else [request])
            && live' == if reply.Accepted? && request.PostNew?
                        then Added(live, c.cacheSize, Entry(reply.id, annotation)) else live
  {
  }

  /** What a call does, read off its arguments: a crash leaves everything as it is; otherwise the entry
      that `Match` selects is gone whatever the reply; one request is sent unless it could not be built,
      a PATCH of the selected entry's annotation if there is one and a POST if not; and the new
      annotation is cached exactly when a POST was accepted. */
  lemma PostAnswers(c: Config, live: seq<Entry>, annotation: string, time: int, reply: Reply)
    ensures var (live', requests, r) := PostOutcome(c, live, annotation, time, reply);
            Answers(annotation, reply, r) && (r.Crashed? ==> live' == live && requests == [])
    ensures !WhollyBlocks(annotation) ==>
              var (live', requests, _) := PostOutcome(c, live, annotation, time, reply);
              var i := Select(c.rules, live, annotation, 0);
              var hit := if i == -1 || live[i].id == -1 then None else Some(live[i]);
              var kept := if i == -1 then live else Without(live, i);
              && requests == (if reply.NotSent? then [] else [RequestFor(c, annotation, time, hit)])
              && live' == if hit.None? && reply.Accepted?
                          then Added(kept, c.cacheSize, Entry(reply.id, annotation)) else kept
  {
    PanicsIffWhollyBlocks(annotation);
    if Parse(annotation).Extracted? {
      var (hit, kept) := Matched(c, live, annotation);
      RequestOwns(c, annotation, time, hit);
      AnsweredIs(c, kept, annotation, RequestFor(c, annotation, time, hit), reply);
    }
  }

  method MergeTags(t1: seq<string>, t2: seq<string>) returns (list: seq<string>)
    ensures list == Merge([], t1 + t2)
  {
    var keys: set<string> := {};
    list := [];
    var all := t1 + t2;
    for i := 0 to |all|
      invariant keys == set t | t in list
      invariant Merge([], all) == Merge(list, all[i..])
    {
      assert all[i..][0] == all[i] && all[i..][1..] == all[i + 1..];
      if all[i] !in keys {
        keys := keys + {all[i]};
        list := list + [all[i]];
      }
    }
  }

  /** The matcher's contract, in terms of what it reports. */
  lemma MatchedIs(c: Config, live: seq<Entry>, annotation: string, id: int, live': seq<Entry>)
    requires var i := Select(c.rules, live, annotation, 0);
             if i == -1 then id == -1 && live' == live else id == live[i].id && live' == Without(live, i)
    ensures var (hit, kept) := Matched(c, live, annotation);
            && live' == kept && (id == -1 <==> hit.None?) && (hit.Some? ==> hit.value.id == id)
  {
  }

  /** The text and tags to send, whatever the match will say. */
  method Describe(ghost c: Config, tags: seq<string>, annotation: string, ghost time: int)
    returns (crashed: bool, text: string, merged: seq<string>)
    requires tags == c.tags
    ensures crashed == Parse(annotation).Panicked?
    ensures !crashed ==> RequestFor(c, annotation, time, None) == PostNew(text, merged, Millis(time))
    ensures !crashed ==>
              forall e :: RequestFor(c, annotation, time, Some(e)) == PatchEnd(e.id, text, merged, Millis(time))
  {
    var extracted := Extract(annotation);
    if extracted.Panicked? {
      return true, "", [];
    }
    merged := MergeTags(tags, extracted.tags);
    return false, extracted.rest, merged;
  }

  class Annotator {
    const tags: seq<string>
    const cache: RegionMatcher
    // What the HTTP client was asked to do
    var sent: seq<Request>

    ghost predicate Valid()
      reads this, cache
    {
      cache.Valid()
    }

    ghost function Setup(): Config { Config(cache.cacheSize, cache.rules, tags) }

    constructor (tags: seq<string>, cacheSize: int, rules: seq<Rewrite>)
      ensures Valid() && fresh(cache) && fresh(cache.data)
      ensures cache.Contents() == [] && sent == []
      ensures Setup() == Config(cacheSize, rules, if tags == [""] then [] else tags)
    {
      this.tags := if |tags| == 1 && tags[0] == "" then [] else tags;
      var matcher := new RegionMatcher(cacheSize, rules);
      cache := matcher;
      sent := [];
    }

    /** The first half of `Post`: match the text and fill in the annotation to send. */
    method Prepare(annotation: string, time: int) returns (crashed: bool, id: int, ga: Request)
      requires Valid()
      modifies cache`len, cache.data
      ensures Valid()
      ensures crashed == Parse(annotation).Panicked?
      ensures crashed ==> cache.Contents() == old(cache.Contents())
      ensures var (hit, live) := Matched(Setup(), old(cache.Contents()), annotation);
              !crashed ==>
                && cache.Contents() == live && ga == RequestFor(Setup(), annotation, time, hit)
                && (id == -1 <==> ga.PostNew?)
    {
      var text, merged;
      crashed, text, merged := Describe(Setup(), tags, annotation, time);
      if crashed {
        return true, -1, PostNew("", [], 0);
      }
      ghost var live := cache.Contents();
      ga := PostNew(text, merged, Millis(time));
      id := cache.Match(annotation);
      MatchedIs(Setup(), live, annotation, id, cache.Contents());
      if id != -1 {
        ga := PatchEnd(id, text, merged, Millis(time));
      }
    }

    /** `reply` is how the HTTP call will end, `spare` how far `append` will over-allocate. */
    method Post(annotation: string, time: int, reply: Reply, spare: nat) returns (r: Result)
      requires Valid()
      modifies this`sent, cache`data, cache`offset, cache`len, cache.data
      ensures Valid()
      ensures var (live, requests, result) := PostOutcome(Setup(), old(cache.Contents()), annotation, time, reply);
              cache.Contents() == live && sent == old(sent) + requests && r == result
      ensures Answers(annotation, reply, r)
    {
      PanicsIffWhollyBlocks(annotation);
      var crashed, id, ga := Prepare(annotation, time);
      if crashed {
        return Crashed;
      }
      if reply.NotSent? {
        return Failed(reply);
      }
      sent := sent + [ga];
      if !reply.Accepted? {
        return Failed(reply);
      }
      if id == -1 {
        cache.Add(reply.id, annotation, spare);
      }
      return Posted(reply.id);
    }
  }

  lemma BeginIsMatched(c: Config, s: System, post: nat, annotation: string, time: int)
    requires Safe(c, s) && Enabled(s, Begin(post, annotation, time))
    ensures var s' := Next(c, s, Begin(post, annotation, time));
            var (hit, live) := Matched(c, Live(s.history), annotation);
            && Live(s'.history) == live && s'.requests == s.requests && s'.created == s.created
            && hit == HitOf(c, s.history, annotation)
            && s'.flights == s.flights[post := Sending(annotation, RequestFor(c, annotation, time, hit))]
  {
    HistoryRefines(s.history, c.cacheSize, c.rules, Entry(0, ""), annotation);
    var i := Select(c.rules, Live(s.history), annotation, 0);
    assert i != -1 ==> Open(s.created, s.requests, Live(s.history)[i].id);
  }

  lemma RestIsAnswered(c: Config, s: System, post: nat, annotation: string, request: Request, reply: Reply)
    requires InRange(s.history) && post in s.flights && s.flights[post] == Sending(annotation, request)
    requires reply.Accepted? && request.PostNew? ==> Fresh(s, reply.id)
    ensures var s' := Next(c, Next(c, s, Respond(post, reply)), Finish(post));
            var (live, requests, result) := Answered(c, Live(s.history), annotation, request, reply);
            && Live(s'.history) == live && s'.requests == s.requests + requests
            && s'.flights == s.flights - {post}
  {
    if reply.Accepted? && request.PostNew? {
      PostIsCached(c, s, post, annotation, request, reply.id);
    } else {
      var s1 := Next(c, s, Respond(post, reply));
      assert s1.flights == s.flights - {post};
      assert Next(c, s1, Finish(post)) == s1;
    }
  }

  lemma PostIsCached(c: Config, s: System, post: nat, annotation: string, request: Request, id: int)
    requires InRange(s.history) && post in s.flights && s.flights[post] == Sending(annotation, request)
    requires request.PostNew? && Fresh(s, id)
    ensures var s' := Next(c, Next(c, s, Respond(post, Accepted(id))), Finish(post));
            && Live(s'.history) == Added(Live(s.history), c.cacheSize, Entry(id, annotation))
            && s'.requests == s.requests + [request] && s'.flights == s.flights - {post}
  {
    var s1 := Next(c, s, Respond(post, Accepted(id)));
    assert s1.flights == s.flights[post := Adding(annotation, id)] && s1.history == s.history;
    HistoryRefines(s.history, c.cacheSize, c.rules, Entry(id, annotation), "");
    assert s1.flights - {post} == s.flights - {post};
  }

  /** An undisturbed call is the three atomic steps in a row, and leaves no post in flight. */
  lemma PostIsThreeSteps(c: Config, s: System, post: nat, annotation: string, time: int, reply: Reply)
    requires Safe(c, s) && Enabled(s, Begin(post, annotation, time))
    requires reply.Accepted? && HitOf(c, s.history, annotation).None? ==> Fresh(s, reply.id)
    ensures var s' := Next(c, Next(c, Next(c, s, Begin(post, annotation, time)), Respond(post, reply)), Finish(post));
            var (live, requests, result) := PostOutcome(c, Live(s.history), annotation, time, reply);
            && Live(s'.history) == live && s'.requests == s.requests + requests && s'.flights == s.flights
  {
    var (hit, live) := Matched(c, Live(s.history), annotation);
    var request := RequestFor(c, annotation, time, hit);
    RequestOwns(c, annotation, time, hit);
    BeginIsMatched(c, s, post, annotation, time);
    RestIsAnswered(c, Next(c, s, Begin(post, annotation, time)), post, annotation, request, reply);
    assert s.flights[post := Sending(annotation, request)] - {post} == s.flights;
  }
}
