/** Work that is due at most once per period: re-reading the environment, pinging the healthcheck.
    Times are nanoseconds on one nondecreasing clock. */
module Schedule {
  import opened Basics
  import opened Text

  const ENV_VALIDITY := 5 * MINUTE
  const HEALTHCHECK_VALIDITY := 5 * MINUTE

  /** When the work is next due, and the times it was done. */
  datatype Due = Due(expiry: int, done: seq<int>)

  /** Due work is done now, and the expiry moves on by one period, not to one period from now. */
  function Visit(s: Due, period: int, now: int): Due {
    if now > s.expiry then Due(s.expiry + period, s.done + [now]) else s
  }

  function Visits(start: int, period: int, times: seq<int>): Due {
    if times == [] then Due(start, [])
    else Visit(Visits(start, period, times[..|times| - 1]), period, times[|times| - 1])
  }

  predicate Clock(start: int, times: seq<int>) {
    && (forall i | 0 <= i < |times| :: start <= times[i])
    && (forall i, j | 0 <= i < j < |times| :: times[i] <= times[j])
  }

  /** After k rounds of work the expiry is start + k periods, and the k-th round came strictly after
      start + (k-1) periods; each round happened at one of the visits, in order. */
  lemma {:induction false} RateLimited(start: int, period: int, times: seq<int>)
    requires Clock(start, times) && period > 0
    ensures var s := Visits(start, period, times);
            && s.expiry == start + |s.done| * period
            && (forall k | 0 <= k < |s.done| :: s.done[k] > start + k * period && s.done[k] in times)
            && (forall k, l | 0 <= k < l < |s.done| :: s.done[k] <= s.done[l])
  {
    if times == [] {
    } else {
      var n := |times| - 1;
      RateLimited(start, period, times[..n]);
      assert forall t | t in times[..n] :: t in times && t <= times[n];
      assert times[n] in times;
      OneMoreRound(Visits(start, period, times[..n]), start, period, times[n]);
    }
  }

  lemma OneMoreRound(s: Due, start: int, period: int, now: int)
    requires s.expiry == start + |s.done| * period
    requires forall k | 0 <= k < |s.done| :: s.done[k] > start + k * period
    ensures var s' := Visit(s, period, now);
            && s'.expiry == start + |s'.done| * period
            && forall k | 0 <= k < |s'.done| :: s'.done[k] > start + k * period
  {
    assert (|s.done| + 1) * period == |s.done| * period + period;
  }

  /** The last round came less than a period before the expiry. */
  lemma {:induction false} LastIsRecent(start: int, period: int, times: seq<int>)
    requires Clock(start, times)
    ensures var s := Visits(start, period, times);
            if s.done == [] then s.expiry == start
            else start < times[|times| - 1] && s.done[|s.done| - 1] > s.expiry - period
                 && s.done[|s.done| - 1] <= times[|times| - 1]
    ensures period > 0 ==> Visits(start, period, times).expiry >= start
  {
    if times == [] {
    } else {
      LastIsRecent(start, period, times[..|times| - 1]);
    }
  }

  /** At every visit the work was just done or was done less than a period ago, even while the
      expiry catches up after a long idle time; the one exception is a visit at the very instant
      of the start, when the work has never been done. */
  lemma FreshUnlessAtStart(start: int, period: int, times: seq<int>)
    requires Clock(start, times) && period > 0 && times != []
    ensures var now, done := times[|times| - 1], Visits(start, period, times).done;
            (done != [] && now - done[|done| - 1] < period) <==> now > start
  {
    var before := times[..|times| - 1];
    LastIsRecent(start, period, before);
    LastIsRecent(start, period, times);
  }

  /** The environment part of the exporter: `NewExporter` and the head of `WriteMetrics`. */
  class Environment {
    var envExpiry: int
    ghost var readings: seq<int>
    ghost const created: int
    ghost var scrapes: seq<int>

    ghost predicate Valid()
      reads this
    {
      Due(envExpiry, readings) == Visits(created, ENV_VALIDITY, scrapes)
    }

    constructor (now: int)
      ensures Valid() && created == now && scrapes == []
    {
      envExpiry := now;
      readings, created, scrapes := [], now, [];
    }

    method BeginScrape(now: int) returns (read: bool)
      requires Valid()
      modifies this
      ensures Valid() && scrapes == old(scrapes) + [now]
      ensures read == (now > old(envExpiry))
      ensures readings == if read then old(readings) + [now] else old(readings)
    {
      read := now > envExpiry;
      scrapes := scrapes + [now];
      assert scrapes[..|scrapes| - 1] == old(scrapes);
      if read {
        ReadEnvironment(now);
      }
    }

    /** The last act of `readEnvironment`. */
    method ReadEnvironment(ghost now: int)
      modifies this`envExpiry, this`readings
      ensures envExpiry == old(envExpiry) + 5 * MINUTE && readings == old(readings) + [now]
    {
      envExpiry := envExpiry + ENV_VALIDITY;
      readings := readings + [now];
    }
  }

  // ----- Healthcheck pings

  datatype Ping = StartPing(request: nat, at: int) | EndPing(request: nat, at: int, failed: bool)

  /** The service named before the first ':', if there is one. */
  function Service(setting: string): string {
    var i := Index(setting, ":");
    if i == -1 then "" else setting[..i]
  }

  predicate Configured(setting: string) { setting != "" && Index(setting, ":") != -1 }

  lemma FirstColon(setting: string)
    ensures var i := Index(setting, ":");
            if i == -1 then ':' !in setting else i < |setting| && setting[i] == ':' && ':' !in setting[..i]
  {
    forall k | 0 <= k < |setting| ensures OccursAt(setting, ":", k) <==> setting[k] == ':' {
      assert setting[k..][0] == setting[k] && setting[k..][..1] == [setting[k]];
    }
  }

  lemma BeginsWithName(setting: string, name: string)
    ensures name + ":" <= setting <==>
              |name| < |setting| && setting[|name|] == ':' && setting[..|name|] == name
  {
    if |name| < |setting| {
      assert setting[..|name| + 1] == setting[..|name|] + [setting[|name|]];
      assert name + ":" <= setting <==> setting[..|name| + 1] == name + ":";
    }
  }

  /** A setting names a service exactly when it begins with the service and a ':'. */
  lemma ServiceMeaning(setting: string, name: string)
    requires ':' !in name
    ensures Configured(setting) <==> ':' in setting
    ensures Configured(setting) && Service(setting) == name <==> name + ":" <= setting
  {
    var i := Index(setting, ":");
    FirstColon(setting);
    BeginsWithName(setting, name);
    assert i != -1 ==> forall k | 0 <= k < i :: setting[..i][k] == setting[k];
    assert |name| < |setting| ==> forall k | 0 <= k < |name| :: setting[..|name|][k] == setting[k];
  }

  datatype Health = Health(expiry: int, pings: seq<Ping>)

  /** `handleHealthcheck`: only an end call moves the expiry on. */
  function Handle(h: Health, setting: string, ping: Ping): Health {
    if !Configured(setting) || ping.at <= h.expiry then h
    else
      Health(if ping.EndPing? then h.expiry + HEALTHCHECK_VALIDITY else h.expiry,
             if Service(setting) == "healthchecks.io" then h.pings + [ping] else h.pings)
  }

  lemma HealthchecksName() ensures ':' !in "healthchecks.io" && "healthchecks.io" + ":" == "healthchecks.io:" {}

  /** A call pings exactly when it comes after the expiry with a setting that begins with
      "healthchecks.io:", and an end call moves the expiry on for any setting with a ':'. */
  lemma PingSentIff(h: Health, setting: string, ping: Ping)
    ensures var h', due := Handle(h, setting, ping), ping.at > h.expiry;
            && h'.pings == (if due && "healthchecks.io:" <= setting then h.pings + [ping] else h.pings)
            && h'.expiry == if due && ':' in setting && ping.EndPing? then h.expiry + 5 * MINUTE else h.expiry
  {
    HealthchecksName();
    ServiceMeaning(setting, "healthchecks.io");
  }

  /** One metrics request: a start call at `begin`, an end call at `end`. */
  datatype Request = Request(begin: int, end: int, failed: bool)

  function Serve(h: Health, setting: string, i: nat, r: Request): Health {
    Handle(Handle(h, setting, StartPing(i, r.begin)), setting, EndPing(i, r.end, r.failed))
  }

  function ServeAll(start: int, setting: string, rs: seq<Request>): Health {
    if rs == [] then Health(start, [])
    else
      var n := |rs| - 1;
      Serve(ServeAll(start, setting, rs[..n]), setting, n, rs[n])
  }

  predicate Sequential(start: int, rs: seq<Request>) {
    && (forall i | 0 <= i < |rs| :: start <= rs[i].begin <= rs[i].end)
    && (forall i, j | 0 <= i < j < |rs| :: rs[i].end <= rs[j].begin)
  }

  function Ends(pings: seq<Ping>): seq<Ping> {
    if pings == [] then []
    else
      var n := |pings| - 1;
      Ends(pings[..n]) + if pings[n].EndPing? then [pings[n]] else []
  }

  /** Every start ping is followed at once by the end ping of its own request. */
  predicate Paired(pings: seq<Ping>) {
    forall i | 0 <= i < |pings| && pings[i].StartPing? ::
      i + 1 < |pings| && pings[i + 1].EndPing? && pings[i + 1].request == pings[i].request
  }

  lemma EndsSnoc(pings: seq<Ping>, p: Ping)
    ensures Ends(pings + [p]) == Ends(pings) + if p.EndPing? then [p] else []
  {
    assert (pings + [p])[..|pings|] == pings;
  }

  lemma ServeEffect(h: Health, setting: string, i: nat, r: Request)
    requires Configured(setting) && Service(setting) == "healthchecks.io" && r.begin <= r.end
    ensures var h' := Serve(h, setting, i, r);
            var e := EndPing(i, r.end, r.failed);
            if r.end <= h.expiry then h' == h
            else && h'.expiry == h.expiry + HEALTHCHECK_VALIDITY
                 && h'.pings == (if r.begin > h.expiry then h.pings + [StartPing(i, r.begin)] else h.pings) + [e]
  {
  }

  lemma PairedAppend(pings: seq<Ping>, s: Ping, e: Ping)
    requires Paired(pings) && s.StartPing? && e.EndPing? && s.request == e.request
    ensures Paired(pings + [e]) && Paired(pings + [s] + [e])
    ensures Ends(pings + [e]) == Ends(pings) + [e] && Ends(pings + [s] + [e]) == Ends(pings) + [e]
  {
    PairedSnoc(pings, e);
    PairedSnocTwo(pings, s, e);
    EndsSnoc(pings, e);
    EndsSnoc(pings, s);
    EndsSnoc(pings + [s], e);
  }

  lemma PairedSnoc(pings: seq<Ping>, e: Ping)
    requires Paired(pings) && e.EndPing?
    ensures Paired(pings + [e])
  {
  }

  lemma PairedSnocTwo(pings: seq<Ping>, s: Ping, e: Ping)
    requires Paired(pings) && s.StartPing? && e.EndPing? && s.request == e.request
    ensures Paired(pings + [s] + [e])
  {
    var all := pings + [s] + [e];
    forall i | 0 <= i < |all| && all[i].StartPing?
      ensures i + 1 < |all| && all[i + 1].EndPing? && all[i + 1].request == all[i].request
    {
      assert i < |pings| ==> all[i] == pings[i];
    }
  }

  /** Pings are paired, and the k-th end ping came strictly after start + (k-1) periods. */
  predicate PairedAndLimited(start: int, h: Health) {
    var ends := Ends(h.pings);
    && Paired(h.pings)
    && h.expiry == start + |ends| * HEALTHCHECK_VALIDITY
    && forall k | 0 <= k < |ends| :: ends[k].at > start + k * HEALTHCHECK_VALIDITY
  }

  lemma EndKeeps(start: int, h: Health, h': Health, e: Ping)
    requires PairedAndLimited(start, h) && e.at > h.expiry && h'.expiry == h.expiry + HEALTHCHECK_VALIDITY
    requires Paired(h'.pings) && Ends(h'.pings) == Ends(h.pings) + [e]
    ensures PairedAndLimited(start, h')
  {
  }

  lemma ServeKeeps(start: int, h: Health, setting: string, i: nat, r: Request)
    requires PairedAndLimited(start, h)
    requires Configured(setting) && Service(setting) == "healthchecks.io" && r.begin <= r.end
    ensures PairedAndLimited(start, Serve(h, setting, i, r))
  {
    var h', s, e := Serve(h, setting, i, r), StartPing(i, r.begin), EndPing(i, r.end, r.failed);
    ServeEffect(h, setting, i, r);
    if r.end > h.expiry {
      PairedAppend(h.pings, s, e);
      EndKeeps(start, h, h', e);
    }
  }

  /** Sequential requests with a healthchecks.io setting: start pings are always answered by their
      request's end ping, and end pings are rate-limited. */
  lemma {:induction false} PingsPairedAndLimited(start: int, setting: string, rs: seq<Request>)
    requires Sequential(start, rs) && Configured(setting) && Service(setting) == "healthchecks.io"
    ensures PairedAndLimited(start, ServeAll(start, setting, rs))
  {
    if rs == [] {
    } else {
      var n := |rs| - 1;
      PingsPairedAndLimited(start, setting, rs[..n]);
      ServeKeeps(start, ServeAll(start, setting, rs[..n]), setting, n, rs[n]);
    }
  }

  // ----- Overlapping requests

  /** The start and end calls of any requests, in the order they happen. */
  function HandleAll(h: Health, setting: string, calls: seq<Ping>): Health {
    if calls == [] then h
    else Handle(HandleAll(h, setting, calls[..|calls| - 1]), setting, calls[|calls| - 1])
  }

  /** How often these calls moved the expiry on. */
  function Moves(h: Health, setting: string, calls: seq<Ping>): nat {
    if calls == [] then 0
    else
      var before, last := calls[..|calls| - 1], calls[|calls| - 1];
      Moves(h, setting, before)
      + if Configured(setting) && last.EndPing? && last.at > HandleAll(h, setting, before).expiry then 1 else 0
  }

  lemma {:induction false} MovesMoveExpiry(h: Health, setting: string, calls: seq<Ping>)
    ensures HandleAll(h, setting, calls).expiry == h.expiry + Moves(h, setting, calls) * HEALTHCHECK_VALIDITY
  {
    if calls == [] {
    } else {
      MovesMoveExpiry(h, setting, calls[..|calls| - 1]);
    }
  }

  /** A request whose start ping went out gets no end ping exactly when end calls of other requests in
      between moved the expiry to its own end or past it. */
  lemma EndPingMissingIff(h: Health, setting: string, s: Ping, between: seq<Ping>, e: Ping)
    requires Configured(setting) && Service(setting) == "healthchecks.io"
    requires s.StartPing? && e.EndPing? && h.expiry < s.at <= e.at
    ensures var h1 := Handle(h, setting, s);
            var h2 := HandleAll(h1, setting, between);
            var n := Moves(h1, setting, between);
            && h1.pings == h.pings + [s]
            && (Handle(h2, setting, e).pings == h2.pings
                <==> n > 0 && e.at <= h.expiry + n * HEALTHCHECK_VALIDITY)
            && (Handle(h2, setting, e).pings != h2.pings ==> Handle(h2, setting, e).pings == h2.pings + [e])
  {
    MovesMoveExpiry(Handle(h, setting, s), setting, between);
  }

  /** Two requests that overlap are enough: the first one's start ping is never answered. */
  lemma OverlapLosesEndPing(setting: string)
    requires Configured(setting) && Service(setting) == "healthchecks.io"
    ensures HandleAll(Health(0, []), setting,
                      [StartPing(0, 1), StartPing(1, 2), EndPing(1, 3, false), EndPing(0, 4, false)]).pings
         == [StartPing(0, 1), StartPing(1, 2), EndPing(1, 3, false)]
  {
    var a, b, c, d := StartPing(0, 1), StartPing(1, 2), EndPing(1, 3, false), EndPing(0, 4, false);
    var h0 := Health(0, []);
    HandleSnoc(h0, setting, [], a);
    HandleSnoc(h0, setting, [a], b);
    HandleSnoc(h0, setting, [a, b], c);
    HandleSnoc(h0, setting, [a, b, c], d);
    assert [] + [a] == [a] && [a] + [b] == [a, b] && [a, b] + [c] == [a, b, c] && [a, b, c] + [d] == [a, b, c, d];
  }

  lemma HandleSnoc(h: Health, setting: string, calls: seq<Ping>, last: Ping)
    ensures HandleAll(h, setting, calls + [last]) == Handle(HandleAll(h, setting, calls), setting, last)
  {
    assert (calls + [last])[..|calls|] == calls;
  }

  /** `handleHealthcheck` on the process-wide expiry. */
  class Healthcheck {
    var expiry: int
    var pings: seq<Ping>

    constructor (now: int)
      ensures expiry == now && pings == []
    {
      expiry, pings := now, [];
    }

    method HandleCall(setting: string, ping: Ping)
      modifies this
      ensures Health(expiry, pings) == Handle(Health(old(expiry), old(pings)), setting, ping)
    {
      if setting == "" {
        return;
      }
      if !(ping.at > expiry) {
        return;
      }
      var i := Index(setting, ":");
      if i == -1 {
        return;
      }
      if setting[..i] == "healthchecks.io" {
        pings := pings + [ping];
      }
      if ping.EndPing? {
        expiry := expiry + HEALTHCHECK_VALIDITY;
      }
    }
  }
}
