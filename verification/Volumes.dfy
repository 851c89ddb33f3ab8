/** Volume metrics: enumerating the volumes, and caching their free sizes for a minute. */
module Volumes {
  import opened Basics

  const VOLUME_VALIDITY := MINUTE

  datatype Volume = Volume(index: nat, description: string, fileSystem: string, status: string,
                           freeSize: int, totalSize: int)

  // ----- readSysVolInfo

  /** What getsysinfo says about one index; None is a failed command or an unparsable size. */
  datatype Info = Info(description: Option<string>, fileSystem: Option<string>,
                       totalSize: Option<int>, status: Option<string>)

  type System = nat -> Info

  predicate Described(sys: System, i: nat) { sys(i).description.Some? }

  /** A described index becomes a volume when every further command succeeds and nothing tells it is
      not one. */
  predicate Accepted(sys: System, i: nat) {
    var v := sys(i);
    && v.description.Some? && v.description.value != ""
    && v.fileSystem.Some? && v.fileSystem.value != "Unknown"
    && v.totalSize.Some? && v.status.Some?
  }

  function VolumeAt(sys: System, i: nat): Volume
    requires Accepted(sys, i)
  {
    var v := sys(i);
    Volume(i, v.description.value, v.fileSystem.value, v.status.value, 0, v.totalSize.value)
  }

  /** How many of the indices below `n` are described. */
  function Descriptions(sys: System, n: nat): nat {
    if n == 0 then 0 else Descriptions(sys, n - 1) + if Described(sys, n - 1) then 1 else 0
  }

  /** The accepted volumes below `n`, in index order. */
  function AcceptedBelow(sys: System, n: nat): seq<Volume> {
    if n == 0 then []
    else AcceptedBelow(sys, n - 1) + if Accepted(sys, n - 1) then [VolumeAt(sys, n - 1)] else []
  }

  /** `v` is exactly what the system says about an index below `n` that is a volume. */
  predicate Listed(sys: System, n: nat, v: Volume) {
    && v.index < n && v.freeSize == 0
    && sys(v.index) == Info(Some(v.description), Some(v.fileSystem), Some(v.totalSize), Some(v.status))
    && v.description != "" && v.fileSystem != "Unknown"
  }

  predicate InOrder(vs: seq<Volume>) { forall k, l | 0 <= k < l < |vs| :: vs[k].index < vs[l].index }

  lemma {:induction false} AcceptedBelowMeaning(sys: System, n: nat, vs: seq<Volume>)
    requires vs == AcceptedBelow(sys, n)
    ensures forall v :: v in vs <==> Listed(sys, n, v)
    ensures InOrder(vs)
  {
    if n == 0 {
    } else {
      var before := AcceptedBelow(sys, n - 1);
      AcceptedBelowMeaning(sys, n - 1, before);
      assert vs == before + if Accepted(sys, n - 1) then [VolumeAt(sys, n - 1)] else [];
      forall v ensures v in vs <==> Listed(sys, n, v) {
        assert v in before <==> Listed(sys, n - 1, v);
      }
      forall k | 0 <= k < |before| ensures before[k].index < n - 1 {
        assert before[k] in before;
      }
    }
  }

  function DescribedBelow(sys: System, n: nat): set<nat> { set i: nat | i < n && Described(sys, i) }

  lemma {:induction false} DescriptionsMeaning(sys: System, n: nat)
    ensures Descriptions(sys, n) == |DescribedBelow(sys, n)|
  {
    if n == 0 {
      assert DescribedBelow(sys, 0) == {};
    } else {
      DescriptionsMeaning(sys, n - 1);
      DescribedSnoc(sys, n - 1);
    }
  }

  lemma DescribedSnoc(sys: System, n: nat)
    ensures DescribedBelow(sys, n + 1) == DescribedBelow(sys, n) + if Described(sys, n) then {n} else {}
    ensures n !in DescribedBelow(sys, n)
  {
  }

  lemma {:induction false} DescriptionsGrow(sys: System, m: nat, n: nat)
    requires m <= n
    ensures Descriptions(sys, m) <= Descriptions(sys, n)
  {
    if m == n {
    } else {
      DescriptionsGrow(sys, m, n - 1);
    }
  }

  /** `Crashed` is the panic of making a list with a negative capacity; `Unfinished` is a loop that has
      not ended after the indices allowed to it. */
  datatype Listing = Crashed | Unfinished | Found(volumes: seq<Volume>, idx: nat)

  /** The loop of `readSysVolInfo`, observed for `limit` iterations. It ends within them exactly when
      `volCount` of the indices below `limit` are described, and then holds, in strictly increasing
      index order, exactly the accepted volumes up to the last index it needed. */
  method ReadSysVolInfo(sys: System, volCount: int, limit: nat) returns (r: Listing)
    ensures r.Crashed? <==> volCount < 0
    ensures r.Found? <==> 0 <= volCount <= Descriptions(sys, limit)
    ensures r.Found? ==>
              && r.volumes == AcceptedBelow(sys, r.idx) && Descriptions(sys, r.idx) == volCount
              && (r.idx > 0 ==> Described(sys, r.idx - 1))
    ensures r.Found? ==> InOrder(r.volumes) && forall v :: v in r.volumes <==> Listed(sys, r.idx, v)
  {
    if volCount < 0 {
      return Crashed;
    }
    var volumes: seq<Volume>, idx: nat := [], 0;
    var parsedVolCount := 0;
    while parsedVolCount < volCount && idx < limit
      invariant idx <= limit && parsedVolCount == Descriptions(sys, idx) <= volCount
      invariant volumes == AcceptedBelow(sys, idx)
      invariant idx == 0 || parsedVolCount < volCount || Described(sys, idx - 1)
    {
      var v := sys(idx);
      idx := idx + 1;
      if v.description.None? {
        continue;
      }
      parsedVolCount := parsedVolCount + 1;
      if v.description.value == "" || v.fileSystem.None? || v.fileSystem.value == "Unknown" {
        continue;
      }
      if v.totalSize.None? || v.status.None? {
        continue;
      }
      volumes := volumes + [Volume(idx - 1, v.description.value, v.fileSystem.value, v.status.value,
                                   0, v.totalSize.value)];
    }
    DescriptionsGrow(sys, idx, limit);
    AcceptedBelowMeaning(sys, idx, volumes);
    return if parsedVolCount < volCount then Unfinished else Found(volumes, idx);
  }

  // ----- getSysInfoVolMetrics

  /** The answer to one `vol_freesize` command: when it was given and what it said. */
  datatype Answer = Answer(at: int, size: Option<int>)

  /** A size that was read for a volume, and when. */
  datatype Read = Read(index: nat, at: int, size: int)

  /** The exporter's fields, and every size read so far. */
  datatype Cache = Cache(volumes: seq<Volume>, lastFetch: Option<int>, log: set<Read>)

  /** One call: the expiry check, the new fetch time, and the answer the i-th volume would give. */
  datatype Call = Call(check: int, stamp: int, answers: nat -> Answer)

  predicate Expired(lastFetch: Option<int>, check: int) {
    lastFetch.None? || check > lastFetch.value + VOLUME_VALIDITY
  }

  function Store(c: Cache, i: nat, at: int, size: int): Cache
    requires i < |c.volumes|
  {
    c.(volumes := c.volumes[i := c.volumes[i].(freeSize := size)],
       log := c.log + {Read(c.volumes[i].index, at, size)})
  }

  /** The loop over the volumes from the i-th on: a size is read when the cache expired or holds none,
      and the first failure ends the call. */
  function Refresh(c: Cache, expired: bool, answers: nat -> Answer, i: nat): (Cache, bool)
    requires i <= |c.volumes|
    decreases |c.volumes| - i
  {
    if i == |c.volumes| then (c, true)
    else if !expired && c.volumes[i].freeSize != 0 then Refresh(c, expired, answers, i + 1)
    else
      match answers(i).size
      case None => (c, false)
      case Some(size) => Refresh(Store(c, i, answers(i).at, size), expired, answers, i + 1)
  }

  function Metrics(c: Cache, call: Call): (Cache, bool) {
    var expired := Expired(c.lastFetch, call.check);
    Refresh(if expired then c.(lastFetch := Some(call.stamp)) else c, expired, call.answers, 0)
  }

  /** `readSysVolInfo` rebuilds the list with no size read yet, and leaves the fetch time alone. */
  function Rebuild(c: Cache, volumes: seq<Volume>): Cache {
    c.(volumes := seq(|volumes|, i requires 0 <= i < |volumes| => volumes[i].(freeSize := 0)))
  }

  // ----- Freshness

  /** The size of `v` was read at `since` or later. */
  ghost predicate ReadSince(log: set<Read>, v: Volume, since: int) {
    exists r | r in log :: r.index == v.index && r.size == v.freeSize && r.at >= since
  }

  /** Every cached size was read no earlier than the fetch time. */
  ghost predicate Fresh(c: Cache) {
    forall i | 0 <= i < |c.volumes| && c.volumes[i].freeSize != 0 ::
      c.lastFetch.Some? && ReadSince(c.log, c.volumes[i], c.lastFetch.value)
  }

  predicate Distinct(volumes: seq<Volume>) {
    forall i, j | 0 <= i < j < |volumes| :: volumes[i].index != volumes[j].index
  }

  /** Whether a call asks for the size of the j-th volume. */
  predicate Asked(c: Cache, expired: bool, j: int)
    requires 0 <= j < |c.volumes|
  {
    expired || c.volumes[j].freeSize == 0
  }

  /** The first position from `i` on whose size is asked for in vain, or the number of volumes. */
  function Stop(c: Cache, expired: bool, answers: nat -> Answer, i: nat): (k: nat)
    requires i <= |c.volumes|
    ensures i <= k <= |c.volumes|
    ensures forall j | i <= j < k :: Asked(c, expired, j) ==> answers(j).size.Some?
    ensures k < |c.volumes| ==> Asked(c, expired, k) && answers(k).size.None?
    decreases |c.volumes| - i
  {
    if i == |c.volumes| || (Asked(c, expired, i) && answers(i).size.None?) then i
    else Stop(c, expired, answers, i + 1)
  }

  /** What the loop from `i` on makes of the j-th volume: its size becomes the answer, which is on
      record, or the volume is left as it was. */
  predicate Handled(c: Cache, c': Cache, expired: bool, answers: nat -> Answer, i: nat, k: nat, j: nat)
    requires |c'.volumes| == |c.volumes| && j < |c.volumes|
  {
    if i <= j < k && Asked(c, expired, j)
    then answers(j).size.Some? && Recorded(c', j, c.volumes[j], answers(j))
    else c'.volumes[j] == c.volumes[j]
  }

  predicate Recorded(c': Cache, j: nat, v: Volume, answer: Answer)
    requires j < |c'.volumes| && answer.size.Some?
  {
    && c'.volumes[j] == v.(freeSize := answer.size.value)
    && Read(v.index, answer.at, answer.size.value) in c'.log
  }

  predicate AllHandled(c: Cache, c': Cache, expired: bool, answers: nat -> Answer, i: nat, k: nat)
    requires |c'.volumes| == |c.volumes|
  {
    forall j: nat | j < |c.volumes| :: Handled(c, c', expired, answers, i, k, j)
  }

  /** `r` is the answer for the j-th volume, asked for by a loop that started at `i` and stopped at `k`. */
  predicate ReadOf(c: Cache, expired: bool, answers: nat -> Answer, i: nat, k: nat, j: nat, r: Read) {
    && i <= j < k && j < |c.volumes| && Asked(c, expired, j) && c.volumes[j].index == r.index
    && answers(j) == Answer(r.at, Some(r.size))
  }

  /** The reads a loop adds are the answers for volumes it asked for before it stopped. */
  ghost predicate NewReads(c: Cache, c': Cache, expired: bool, answers: nat -> Answer, i: nat, k: nat) {
    && c.log <= c'.log
    && forall r | r in c'.log && r !in c.log :: exists j: nat :: ReadOf(c, expired, answers, i, k, j, r)
  }

  lemma StoreEffect(c: Cache, i: nat, answer: Answer)
    requires i < |c.volumes| && answer.size.Some?
    ensures var c' := Store(c, i, answer.at, answer.size.value);
            && |c'.volumes| == |c.volumes| && c'.lastFetch == c.lastFetch
            && Recorded(c', i, c.volumes[i], answer)
            && (forall j | 0 <= j < |c.volumes| && j != i :: c'.volumes[j] == c.volumes[j])
            && c'.log == c.log + {Read(c.volumes[i].index, answer.at, answer.size.value)}
  {
  }

  lemma ReadSinceGrows(log: set<Read>, log': set<Read>, v: Volume, since: int, earlier: int)
    requires ReadSince(log, v, since) && earlier <= since && log <= log'
    ensures ReadSince(log', v, earlier)
  {
    var r :| r in log && r.index == v.index && r.size == v.freeSize && r.at >= since;
    assert r in log';
  }

  /** Positions past `i` do not notice that the i-th size is stored. */
  lemma {:induction false} StopAfterStore(c: Cache, c1: Cache, expired: bool, answers: nat -> Answer, i: nat)
    requires i <= |c.volumes| == |c1.volumes|
    requires forall j | i <= j < |c.volumes| :: c1.volumes[j] == c.volumes[j]
    ensures Stop(c1, expired, answers, i) == Stop(c, expired, answers, i)
    decreases |c.volumes| - i
  {
    if i == |c.volumes| {
    } else {
      StopAfterStore(c, c1, expired, answers, i + 1);
    }
  }

  lemma {:induction false} RefreshEffect(c: Cache, expired: bool, answers: nat -> Answer, i: nat)
    requires i <= |c.volumes|
    ensures var (c', ok) := Refresh(c, expired, answers, i);
            var k := Stop(c, expired, answers, i);
            && |c'.volumes| == |c.volumes| && c'.lastFetch == c.lastFetch && (ok <==> k == |c.volumes|)
            && AllHandled(c, c', expired, answers, i, k)
            && NewReads(c, c', expired, answers, i, k)
    decreases |c.volumes| - i
  {
    var c', k := Refresh(c, expired, answers, i).0, Stop(c, expired, answers, i);
    if i == |c.volumes| {
    } else if !Asked(c, expired, i) {
      RefreshEffect(c, expired, answers, i + 1);
      SkipThenRest(c, c', expired, answers, i, k);
    } else if answers(i).size.None? {
    } else {
      var c1 := Store(c, i, answers(i).at, answers(i).size.value);
      StoreEffect(c, i, answers(i));
      StopAfterStore(c, c1, expired, answers, i + 1);
      RefreshEffect(c1, expired, answers, i + 1);
      StoreThenRest(c, c1, c', expired, answers, i, k);
    }
  }

  lemma StoreThenRest(c: Cache, c1: Cache, c': Cache, expired: bool, answers: nat -> Answer, i: nat, k: nat)
    requires i < k <= |c.volumes| == |c1.volumes| == |c'.volumes| && Asked(c, expired, i)
    requires answers(i).size.Some? && Recorded(c1, i, c.volumes[i], answers(i))
    requires forall j | 0 <= j < |c.volumes| && j != i :: c1.volumes[j] == c.volumes[j]
    requires c1.log == c.log + {Read(c.volumes[i].index, answers(i).at, answers(i).size.value)}
    requires AllHandled(c1, c', expired, answers, i + 1, k)
    requires NewReads(c1, c', expired, answers, i + 1, k)
    ensures AllHandled(c, c', expired, answers, i, k)
    ensures NewReads(c, c', expired, answers, i, k)
  {
    forall j: nat | j < |c.volumes| ensures Handled(c, c', expired, answers, i, k, j) {
      assert Handled(c1, c', expired, answers, i + 1, k, j);
    }
    forall r | r in c'.log && r !in c.log ensures exists j: nat :: ReadOf(c, expired, answers, i, k, j, r) {
      if r in c1.log {
        assert ReadOf(c, expired, answers, i, k, i, r);
      } else {
        var j: nat :| ReadOf(c1, expired, answers, i + 1, k, j, r);
        assert ReadOf(c, expired, answers, i, k, j, r);
      }
    }
  }

  lemma SkipThenRest(c: Cache, c': Cache, expired: bool, answers: nat -> Answer, i: nat, k: nat)
    requires i < k <= |c.volumes| == |c'.volumes| && !Asked(c, expired, i)
    requires AllHandled(c, c', expired, answers, i + 1, k)
    requires NewReads(c, c', expired, answers, i + 1, k)
    ensures AllHandled(c, c', expired, answers, i, k)
    ensures NewReads(c, c', expired, answers, i, k)
  {
    forall j: nat | j < |c.volumes| ensures Handled(c, c', expired, answers, i, k, j) {
      assert Handled(c, c', expired, answers, i + 1, k, j);
    }
    forall r | r in c'.log && r !in c.log ensures exists j: nat :: ReadOf(c, expired, answers, i, k, j, r) {
      var j: nat :| ReadOf(c, expired, answers, i + 1, k, j, r);
      assert ReadOf(c, expired, answers, i, k, j, r);
    }
  }

  /** The clock only moves forward: expiry check, fetch time, answers. */
  ghost predicate Timed(c: Cache, call: Call) {
    && (c.lastFetch.Some? ==> c.lastFetch.value <= call.check)
    && call.check <= call.stamp && forall k: nat :: call.answers(k).at >= call.stamp
  }

  /** The clock has moved since the last size was read. */
  ghost predicate Moved(c: Cache, call: Call) { forall r | r in c.log :: r.at < call.stamp }

  /** No size cached at or after the position where the call stops. A call that does not fail stops
      behind the last volume. */
  predicate Harmless(c: Cache, call: Call) {
    forall j | Stop(c, Expired(c.lastFetch, call.check), call.answers, 0) <= j < |c.volumes| ::
      c.volumes[j].freeSize == 0
  }

  /** A call's whole effect. It stops at the first volume it asks for in vain; before that, every size
      asked for becomes the answer, and nothing else changes; an expired call sets the fetch time, even
      if it fails; and the reads it adds are answers it was given. */
  lemma MetricsEffect(c: Cache, call: Call)
    ensures var (c', ok) := Metrics(c, call);
            var expired := Expired(c.lastFetch, call.check);
            var k := Stop(c, expired, call.answers, 0);
            && |c'.volumes| == |c.volumes| && (ok <==> k == |c.volumes|)
            && c'.lastFetch == (if expired then Some(call.stamp) else c.lastFetch)
            && AllHandled(c, c', expired, call.answers, 0, k)
            && NewReads(c, c', expired, call.answers, 0, k)
  {
    var expired := Expired(c.lastFetch, call.check);
    var c0 := if expired then c.(lastFetch := Some(call.stamp)) else c;
    RefreshEffect(c0, expired, call.answers, 0);
    StopAfterStore(c, c0, expired, call.answers, 0);
    var c', k := Metrics(c, call).0, Stop(c, expired, call.answers, 0);
    forall j: nat | j < |c.volumes| ensures Handled(c, c', expired, call.answers, 0, k, j) {
      assert Handled(c0, c', expired, call.answers, 0, k, j);
    }
    forall r | r in c'.log && r !in c.log ensures exists j: nat :: ReadOf(c, expired, call.answers, 0, k, j, r) {
      var j: nat :| ReadOf(c0, expired, call.answers, 0, k, j, r);
      assert ReadOf(c, expired, call.answers, 0, k, j, r);
    }
  }

  /** What a call leaves of the j-th volume, in terms of when its size was read. */
  lemma EachVolume(c: Cache, call: Call, j: nat)
    requires Timed(c, call) && j < |c.volumes|
    ensures var c' := Metrics(c, call).0;
            var expired := Expired(c.lastFetch, call.check);
            && |c'.volumes| == |c.volumes| && c'.volumes[j].index == c.volumes[j].index
            && if j < Stop(c, expired, call.answers, 0) && Asked(c, expired, j)
               then ReadSince(c'.log, c'.volumes[j], call.stamp)
               else c'.volumes[j] == c.volumes[j]
  {
    MetricsEffect(c, call);
    var c', expired := Metrics(c, call).0, Expired(c.lastFetch, call.check);
    assert Handled(c, c', expired, call.answers, 0, Stop(c, expired, call.answers, 0), j);
    if c'.volumes[j] != c.volumes[j] || (j < Stop(c, expired, call.answers, 0) && Asked(c, expired, j)) {
      var r := Read(c.volumes[j].index, call.answers(j).at, call.answers(j).size.value);
      assert r in c'.log && r.size == c'.volumes[j].freeSize;
    }
  }

  /** An expired call leaves the cache fresh if it is harmless, however stale the cache was; any other
      call keeps a fresh cache fresh, even when it fails. */
  lemma CallKeepsFresh(c: Cache, call: Call)
    requires Timed(c, call)
    requires if Expired(c.lastFetch, call.check) then Harmless(c, call) else Fresh(c)
    ensures Fresh(Metrics(c, call).0)
  {
    MetricsEffect(c, call);
    var c', expired := Metrics(c, call).0, Expired(c.lastFetch, call.check);
    var k := Stop(c, expired, call.answers, 0);
    forall j | 0 <= j < |c'.volumes| && c'.volumes[j].freeSize != 0
      ensures c'.lastFetch.Some? && ReadSince(c'.log, c'.volumes[j], c'.lastFetch.value)
    {
      EachVolume(c, call, j);
      if j < k && Asked(c, expired, j) {
        ReadSinceGrows(c'.log, c'.log, c'.volumes[j], call.stamp, c'.lastFetch.value);
      } else {
        ReadSinceGrows(c.log, c'.log, c.volumes[j], c.lastFetch.value, c.lastFetch.value);
      }
    }
  }

  lemma NewReadElsewhere(c: Cache, c': Cache, expired: bool, answers: nat -> Answer, k: nat, j: nat, r: Read)
    requires NewReads(c, c', expired, answers, 0, k) && Distinct(c.volumes) && j < |c.volumes|
    requires k <= j || !Asked(c, expired, j)
    requires r in c'.log && r !in c.log
    ensures r.index != c.volumes[j].index
  {
    var m: nat :| ReadOf(c, expired, answers, 0, k, m, r);
  }

  /** A size the call left alone is as old after the call as before it. */
  lemma LeftAsOld(c: Cache, call: Call, j: nat, since: int)
    requires Timed(c, call) && Distinct(c.volumes) && j < |c.volumes|
    requires var expired := Expired(c.lastFetch, call.check);
             Stop(c, expired, call.answers, 0) <= j || !Asked(c, expired, j)
    ensures |Metrics(c, call).0.volumes| == |c.volumes| && Metrics(c, call).0.volumes[j] == c.volumes[j]
    ensures ReadSince(Metrics(c, call).0.log, c.volumes[j], since) ==> ReadSince(c.log, c.volumes[j], since)
  {
    MetricsEffect(c, call);
    var c', expired := Metrics(c, call).0, Expired(c.lastFetch, call.check);
    var k := Stop(c, expired, call.answers, 0);
    EachVolume(c, call, j);
    if ReadSince(c'.log, c.volumes[j], since) {
      var v := c.volumes[j];
      var r :| r in c'.log && r.index == v.index && r.size == v.freeSize && r.at >= since;
      if r !in c.log {
        NewReadElsewhere(c, c', expired, call.answers, k, j, r);
      }
    }
  }

  /** Exactly when an expired call leaves the cache fresh: when it does not fail at or before a volume
      with a cached size. */
  lemma ExpiredFreshIffHarmless(c: Cache, call: Call)
    requires Timed(c, call) && Moved(c, call) && Distinct(c.volumes) && Expired(c.lastFetch, call.check)
    ensures Fresh(Metrics(c, call).0) <==> Harmless(c, call)
  {
    MetricsEffect(c, call);
    var k := Stop(c, true, call.answers, 0);
    if Harmless(c, call) {
      CallKeepsFresh(c, call);
    } else {
      var j :| k <= j < |c.volumes| && c.volumes[j].freeSize != 0;
      LeftAsOld(c, call, j, call.stamp);
    }
  }

  /** A call that has not expired leaves the cache as fresh, or as stale, as it was. */
  lemma UnexpiredKeepsFreshness(c: Cache, call: Call)
    requires Timed(c, call) && Distinct(c.volumes) && !Expired(c.lastFetch, call.check)
    ensures Fresh(Metrics(c, call).0) <==> Fresh(c)
  {
    MetricsEffect(c, call);
    if Fresh(c) {
      CallKeepsFresh(c, call);
    } else {
      var j :| 0 <= j < |c.volumes| && c.volumes[j].freeSize != 0
               && !ReadSince(c.log, c.volumes[j], c.lastFetch.value);
      LeftAsOld(c, call, j, c.lastFetch.value);
    }
  }

  // ----- Whole runs

  datatype Op = Scrape(call: Call) | ReadEnvironment(volumes: seq<Volume>)

  const EMPTY := Cache([], None, {})

  function Apply(c: Cache, op: Op): Cache {
    match op
    case Scrape(call) => Metrics(c, call).0
    case ReadEnvironment(volumes) => Rebuild(c, volumes)
  }

  function After(c: Cache, ops: seq<Op>): Cache
    decreases |ops|
  {
    if ops == [] then c else After(Apply(c, ops[0]), ops[1..])
  }

  /** Scrapes and environment reads in the order of the clock; fetches may fail. */
  ghost predicate TimedRun(c: Cache, ops: seq<Op>)
    decreases |ops|
  {
    ops == [] || ((ops[0].Scrape? ==> Timed(c, ops[0].call)) && TimedRun(Apply(c, ops[0]), ops[1..]))
  }

  /** The clock moves between scrapes, and an environment read lists no volume twice. */
  ghost predicate MovingRun(c: Cache, ops: seq<Op>)
    decreases |ops|
  {
    ops == [] ||
    ((match ops[0]
      case Scrape(call) => Moved(c, call)
      case ReadEnvironment(volumes) => Distinct(volumes))
     && MovingRun(Apply(c, ops[0]), ops[1..]))
  }

  /** What a caller sees: since the last environment read there was no expired scrape, or the last one
      was harmless. `so` is the answer for the operations before these. */
  predicate LastExpiredHarmless(c: Cache, ops: seq<Op>, so: bool)
    decreases |ops|
  {
    if ops == [] then so
    else
      LastExpiredHarmless(Apply(c, ops[0]), ops[1..],
        match ops[0]
        case Scrape(call) => if Expired(c.lastFetch, call.check) then Harmless(c, call) else so
        case ReadEnvironment(_) => true)
  }

  lemma {:induction false} RunKeepsFresh(c: Cache, ops: seq<Op>, so: bool)
    requires TimedRun(c, ops) && (so ==> Fresh(c))
    ensures LastExpiredHarmless(c, ops, so) ==> Fresh(After(c, ops))
    decreases |ops|
  {
    if ops == [] {
    } else {
      match ops[0]
      case Scrape(call) =>
        var so' := if Expired(c.lastFetch, call.check) then Harmless(c, call) else so;
        if so' {
          CallKeepsFresh(c, call);
        }
        RunKeepsFresh(Metrics(c, call).0, ops[1..], so');
      case ReadEnvironment(volumes) =>
        RunKeepsFresh(Rebuild(c, volumes), ops[1..], true);
    }
  }

  lemma {:induction false} RunLosesFreshness(c: Cache, ops: seq<Op>, so: bool)
    requires TimedRun(c, ops) && MovingRun(c, ops) && Distinct(c.volumes) && (Fresh(c) ==> so)
    ensures Fresh(After(c, ops)) ==> LastExpiredHarmless(c, ops, so)
    decreases |ops|
  {
    if ops == [] {
    } else {
      match ops[0]
      case Scrape(call) =>
        DistinctKept(c, call);
        if Expired(c.lastFetch, call.check) {
          ExpiredFreshIffHarmless(c, call);
          RunLosesFreshness(Metrics(c, call).0, ops[1..], Harmless(c, call));
        } else {
          UnexpiredKeepsFreshness(c, call);
          RunLosesFreshness(Metrics(c, call).0, ops[1..], so);
        }
      case ReadEnvironment(volumes) =>
        RunLosesFreshness(Rebuild(c, volumes), ops[1..], true);
    }
  }

  lemma DistinctKept(c: Cache, call: Call)
    requires Timed(c, call) && Distinct(c.volumes)
    ensures Distinct(Metrics(c, call).0.volumes)
  {
    MetricsEffect(c, call);
    var c', expired := Metrics(c, call).0, Expired(c.lastFetch, call.check);
    forall j | 0 <= j < |c.volumes| ensures c'.volumes[j].index == c.volumes[j].index {
      EachVolume(c, call, j);
    }
  }

  /** Exactly when the cache is fresh after a run, failed fetches and environment reads included: when
      the last expired scrape since the last environment read, if any, was harmless. */
  lemma FreshIffLastExpiredHarmless(ops: seq<Op>)
    requires TimedRun(EMPTY, ops) && MovingRun(EMPTY, ops)
    ensures Fresh(After(EMPTY, ops)) <==> LastExpiredHarmless(EMPTY, ops, true)
  {
    RunKeepsFresh(EMPTY, ops, true);
    RunLosesFreshness(EMPTY, ops, true);
  }

  /** A successful call reports, for every volume, a size that was read at most one minute before the
      call's expiry check, provided it has expired or finds a fresh cache. */
  lemma CallReportsFresh(c: Cache, call: Call)
    requires Timed(c, call) && Metrics(c, call).1 && (Expired(c.lastFetch, call.check) || Fresh(c))
    ensures var c' := Metrics(c, call).0;
            forall j | 0 <= j < |c'.volumes| :: ReadSince(c'.log, c'.volumes[j], call.check - VOLUME_VALIDITY)
  {
    MetricsEffect(c, call);
    var c', expired := Metrics(c, call).0, Expired(c.lastFetch, call.check);
    forall j | 0 <= j < |c'.volumes| ensures ReadSince(c'.log, c'.volumes[j], call.check - VOLUME_VALIDITY) {
      EachVolume(c, call, j);
      if Asked(c, expired, j) {
        ReadSinceGrows(c'.log, c'.log, c'.volumes[j], call.stamp, call.check - VOLUME_VALIDITY);
      } else {
        ReadSinceGrows(c.log, c'.log, c.volumes[j], c.lastFetch.value, call.check - VOLUME_VALIDITY);
      }
    }
  }

  /** The two samples of one volume. */
  datatype Sample = Avail(volume: Volume, bytes: int) | Size(volume: Volume, bytes: int)

  /** For each volume in turn, the size that is free and the size it has. */
  predicate Reports(volumes: seq<Volume>, metrics: seq<Sample>) {
    && |metrics| == 2 * |volumes|
    && forall i | 0 <= i < |volumes| ::
         && metrics[2 * i] == Avail(volumes[i], volumes[i].freeSize)
         && metrics[2 * i + 1] == Size(volumes[i], volumes[i].totalSize)
  }

  /** The reported number was read for this volume at `since` or later. */
  ghost predicate ReportedSince(log: set<Read>, m: Sample, since: int) {
    exists r | r in log :: r.index == m.volume.index && r.size == m.bytes && r.at >= since
  }

  lemma AvailIsOfVolume(volumes: seq<Volume>, metrics: seq<Sample>, m: Sample)
    requires Reports(volumes, metrics) && m in metrics && m.Avail?
    ensures m.volume in volumes && m.bytes == m.volume.freeSize
  {
    var k :| 0 <= k < |metrics| && metrics[k] == m;
    var i := k / 2;
    assert k == 2 * i || k == 2 * i + 1;
    assert volumes[i] in volumes;
  }

  /** After any run, a successful scrape reports as available only numbers read at most a minute before
      its expiry check or during the scrape, unless it has not expired and the last expired scrape
      failed at or before a volume with a cached size. */
  lemma ReportsAreFresh(ops: seq<Op>, call: Call, metrics: seq<Sample>)
    requires TimedRun(EMPTY, ops) && Timed(After(EMPTY, ops), call) && Metrics(After(EMPTY, ops), call).1
    requires Expired(After(EMPTY, ops).lastFetch, call.check) || LastExpiredHarmless(EMPTY, ops, true)
    requires Reports(Metrics(After(EMPTY, ops), call).0.volumes, metrics)
    ensures var log := Metrics(After(EMPTY, ops), call).0.log;
            forall m | m in metrics && m.Avail? :: ReportedSince(log, m, call.check - MINUTE)
  {
    var c' := Metrics(After(EMPTY, ops), call).0;
    RunKeepsFresh(EMPTY, ops, true);
    CallReportsFresh(After(EMPTY, ops), call);
    forall m | m in metrics && m.Avail? ensures ReportedSince(c'.log, m, call.check - MINUTE) {
      AvailIsOfVolume(c'.volumes, metrics, m);
      var j :| 0 <= j < |c'.volumes| && c'.volumes[j] == m.volume;
      assert ReadSince(c'.log, c'.volumes[j], call.check - VOLUME_VALIDITY);
    }
  }

  /** `r` is the answer the k-th operation, a scrape, was given for its j-th volume. */
  predicate GivenIn(c: Cache, ops: seq<Op>, r: Read, k: nat, j: nat) {
    && k < |ops| && ops[k].Scrape?
    && var volumes := After(c, ops[..k]).volumes;
       j < |volumes| && volumes[j].index == r.index && ops[k].call.answers(j) == Answer(r.at, Some(r.size))
  }

  /** The record is honest: every read that a run adds is an answer that one of its scrapes was given
      for a volume of that index. */
  lemma {:induction false} LogIsHonest(c: Cache, ops: seq<Op>, r: Read)
    requires r in After(c, ops).log && r !in c.log
    ensures exists k: nat, j: nat :: GivenIn(c, ops, r, k, j)
    decreases |ops|
  {
    if ops == [] {
    } else {
      var c1, rest := Apply(c, ops[0]), ops[1..];
      if r in c1.log {
        MetricsEffect(c, ops[0].call);
        var expired := Expired(c.lastFetch, ops[0].call.check);
        var answers := ops[0].call.answers;
        var j: nat :| ReadOf(c, expired, answers, 0, Stop(c, expired, answers, 0), j, r);
        assert ops[..0] == [];
        assert GivenIn(c, ops, r, 0, j);
      } else {
        LogIsHonest(c1, rest, r);
        var k: nat, j: nat :| GivenIn(c1, rest, r, k, j);
        assert ops[..k + 1][1..] == rest[..k] && ops[..k + 1][0] == ops[0];
        assert GivenIn(c, ops, r, k + 1, j);
      }
    }
  }

  /** The other side. In any state, after any expired scrape that fails at or before a volume with a
      cached size, a scrape within the next minute reports that size unchanged, and it is as old as it
      was: for any time `t` after the last read of it before the failure, it was not read since `t`.
      With `t` the time of the failing scrape, a scrape one minute later reports a size over a minute
      old. */
  lemma HarmfulFailureGoesStale(c: Cache, failing: Call, later: Call, j: nat, t: int)
    requires Distinct(c.volumes) && Timed(c, failing) && Expired(c.lastFetch, failing.check)
    requires Stop(c, true, failing.answers, 0) <= j < |c.volumes| && c.volumes[j].freeSize != 0
    requires forall r | r in c.log && r.index == c.volumes[j].index :: r.at < t
    requires later.check <= failing.stamp + VOLUME_VALIDITY && Timed(Metrics(c, failing).0, later)
    ensures !Metrics(c, failing).1
    ensures var c2 := Metrics(Metrics(c, failing).0, later).0;
            |c2.volumes| == |c.volumes| && c2.volumes[j] == c.volumes[j] && !ReadSince(c2.log, c2.volumes[j], t)
  {
    MetricsEffect(c, failing);
    DistinctKept(c, failing);
    LeftAsOld(c, failing, j, t);
    LeftAsOld(Metrics(c, failing).0, later, j, t);
  }

  /** No age is out of reach: from the start, one volume is read, its next fetch fails `age` later, and
      the scrape right after that succeeds and reports the old size. */
  lemma StaleOfAnyAge(v: Volume, size: int, age: int) returns (ops: seq<Op>, later: Call)
    requires size != 0 && age > VOLUME_VALIDITY
    ensures TimedRun(EMPTY, ops) && Timed(After(EMPTY, ops), later)
    ensures var (c', ok) := Metrics(After(EMPTY, ops), later);
            && ok && |c'.volumes| == 1 && c'.volumes[0] == v.(freeSize := size)
            && !ReadSince(c'.log, c'.volumes[0], later.check - age)
  {
    var first := Call(0, 0, _ => Answer(0, Some(size)));
    var failing := Call(age, age, _ => Answer(age, None));
    later := Call(age + 1, age + 1, _ => Answer(age + 1, None));
    ops := [ReadEnvironment([v]), Scrape(first), Scrape(failing)];
    var c0 := Rebuild(EMPTY, [v]);
    var c1 := Cache([v.(freeSize := size)], Some(0), {Read(v.index, 0, size)});
    var c2 := c1.(lastFetch := Some(age));
    assert Metrics(c0, first) == (c1, true) by {
      var c := c0.(lastFetch := Some(0));
      assert Store(c, 0, 0, size) == c1;
      assert Refresh(c1, true, first.answers, 1) == (c1, true);
    }
    assert Metrics(c1, failing) == (c2, false);
    assert Metrics(c2, later) == (c2, true) by {
      assert Refresh(c2, false, later.answers, 1) == (c2, true);
    }
    ThreeOps(c0, c1, c2, ops);
  }

  lemma ThreeOps(c0: Cache, c1: Cache, c2: Cache, ops: seq<Op>)
    requires |ops| == 3 && ops[0].ReadEnvironment? && ops[1].Scrape? && ops[2].Scrape?
    requires Apply(EMPTY, ops[0]) == c0 && Apply(c0, ops[1]) == c1 && Apply(c1, ops[2]) == c2
    ensures After(EMPTY, ops) == c2
    ensures TimedRun(EMPTY, ops) <==> Timed(c0, ops[1].call) && Timed(c1, ops[2].call)
  {
    var rest := ops[1..];
    assert rest == [ops[1], ops[2]] && rest[1..] == [ops[2]] && rest[1..][1..] == [];
    assert After(c0, rest) == After(c1, rest[1..]) == After(c2, []);
    assert TimedRun(c1, rest[1..]) <==> Timed(c1, ops[2].call) && TimedRun(c2, []);
  }

  // ----- The object

  class Collector {
    var volumes: seq<Volume>
    var lastFetch: Option<int>
    ghost var log: set<Read>

    ghost function Abstract(): Cache
      reads this
    {
      Cache(volumes, lastFetch, log)
    }

    constructor ()
      ensures Abstract() == Cache([], None, {})
    {
      volumes, lastFetch, log := [], None, {};
    }

    method SetVolumes(found: seq<Volume>)
      modifies this`volumes
      ensures Abstract() == Rebuild(old(Abstract()), found)
      ensures |volumes| == |found| && forall i | 0 <= i < |found| :: volumes[i] == found[i].(freeSize := 0)
    {
      volumes := seq(|found|, i requires 0 <= i < |found| => found[i].(freeSize := 0));
    }

    method GetMetrics(call: Call) returns (ok: bool, metrics: seq<Sample>)
      modifies this
      ensures (Abstract(), ok) == Metrics(old(Abstract()), call)
      ensures if ok then Reports(volumes, metrics) else metrics == []
    {
      var expired := Expired(lastFetch, call.check);
      if expired {
        lastFetch := Some(call.stamp);
      }
      ghost var c0 := Abstract();
      metrics := [];
      for i := 0 to |volumes|
        invariant |volumes| == |c0.volumes| && lastFetch == c0.lastFetch
        invariant Refresh(c0, expired, call.answers, 0) == Refresh(Abstract(), expired, call.answers, i)
        invariant Reports(volumes[..i], metrics)
      {
        var v := volumes[i];
        if expired || v.freeSize == 0 {
          var answer := call.answers(i);
          if answer.size.None? {
            return false, [];
          }
          v := v.(freeSize := answer.size.value);
          log := log + {Read(v.index, answer.at, v.freeSize)};
          volumes := volumes[i := v];
        }
        assert volumes[..i + 1][..i] == volumes[..i];
        metrics := metrics + [Avail(v, v.freeSize), Size(v, v.totalSize)];
      }
      assert volumes[..|volumes|] == volumes;
      ok := true;
    }
  }
}
