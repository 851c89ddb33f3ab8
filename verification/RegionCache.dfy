/** What the region matcher's cache promises, on values: the specification of `Add` and `Match`,
    and the fate of every added entry over whole runs. */
module RegionCache {
  import opened Rewriting

  datatype Entry = Entry(id: int, annotation: string)

  // ----- The two operations on the live entries

  function Added(live: seq<Entry>, cacheSize: int, e: Entry): seq<Entry> {
    var grown := live + [e];
    if |grown| > cacheSize then grown[1..] else grown
  }

  function Without<T>(s: seq<T>, i: nat): seq<T>
    requires i < |s|
  {
    s[..i] + s[i + 1..]
  }

  /** Rule `k` changes the text, and into the annotation of entry `i`. */
  predicate Hit(rules: seq<Rewrite>, live: seq<Entry>, text: string, k: int, i: int) {
    && 0 <= k < |rules| && 0 <= i < |live|
    && rules[k](text) != text && live[i].annotation == rules[k](text)
  }

  /** (k, i) is the lexicographically least hit: first rule first, then oldest entry. */
  ghost predicate FirstHit(rules: seq<Rewrite>, live: seq<Entry>, text: string, k: int, i: int) {
    && Hit(rules, live, text, k, i)
    && forall k', i' | Hit(rules, live, text, k', i') :: k < k' || (k == k' && i <= i')
  }

  /** The oldest entry with this annotation, or -1. */
  function Find(live: seq<Entry>, annotation: string): (i: int)
    ensures -1 <= i < |live|
    ensures i >= 0 ==> live[i].annotation == annotation
    ensures forall j | 0 <= j < (if i == -1 then |live| else i) :: live[j].annotation != annotation
  {
    if live == [] then -1
    else if live[0].annotation == annotation then 0
    else
      var i := Find(live[1..], annotation);
      assert forall j | 0 <= j < |live| - 1 :: live[1..][j] == live[j + 1];
      assert forall j | 0 < j < |live| :: live[j] == live[1..][j - 1];
      if i == -1 then -1 else i + 1
  }

  /** The cache index `Match` settles on, trying rules from the k-th on; -1 when nothing hits. */
  function Select(rules: seq<Rewrite>, live: seq<Entry>, text: string, k: nat): (i: int)
    requires k <= |rules|
    ensures -1 <= i < |live|
    decreases |rules| - k
  {
    if k == |rules| then -1
    else
      var previous := rules[k](text);
      if previous != text && Find(live, previous) >= 0 then Find(live, previous)
      else Select(rules, live, text, k + 1)
  }

  /** `Match` settles on the lexicographically least (rule, entry) that hits, and on nothing
      exactly when no rule hits. */
  lemma SelectIsFirstHit(rules: seq<Rewrite>, live: seq<Entry>, text: string)
    ensures var i := Select(rules, live, text, 0);
            if i == -1 then forall k, j :: !Hit(rules, live, text, k, j)
            else exists k :: FirstHit(rules, live, text, k, i)
    ensures forall k, j | FirstHit(rules, live, text, k, j) :: j == Select(rules, live, text, 0)
  {
    var i := Select(rules, live, text, 0);
    var k := SelectFrom(rules, live, text, 0);
    assert i >= 0 ==> FirstHit(rules, live, text, k, i);
  }

  lemma {:induction false} SelectFrom(rules: seq<Rewrite>, live: seq<Entry>, text: string, from: nat)
    returns (k: int)
    requires from <= |rules|
    ensures var i := Select(rules, live, text, from);
            if i == -1 then forall k', i' | from <= k' :: !Hit(rules, live, text, k', i')
            else from <= k && Hit(rules, live, text, k, i)
                 && forall k', i' | from <= k' && Hit(rules, live, text, k', i') ::
                      k < k' || (k == k' && i <= i')
    decreases |rules| - from
  {
    if from == |rules| {
      k := -1;
    } else {
      var previous := rules[from](text);
      if previous != text && Find(live, previous) >= 0 {
        k := from;
      } else {
        k := SelectFrom(rules, live, text, from + 1);
        assert forall i' :: !Hit(rules, live, text, from, i');
      }
    }
  }

  // ----- Whole runs

  /** Every Add ever made, and where its entry went; entries are named by their position in `adds`. */
  datatype History = History(adds: seq<Entry>, live: seq<nat>, evicted: seq<nat>, returned: seq<nat>)

  datatype Op = Add(entry: Entry) | Match(text: string)

  const EMPTY := History([], [], [], [])

  predicate InRange(h: History) { forall i | 0 <= i < |h.live| :: h.live[i] < |h.adds| }

  function Live(h: History): (s: seq<Entry>)
    requires InRange(h)
    ensures |s| == |h.live| && forall i | 0 <= i < |s| :: s[i] == h.adds[h.live[i]]
  {
    seq(|h.live|, i requires 0 <= i < |h.live| => h.adds[h.live[i]])
  }

  function AddTo(h: History, cacheSize: int, e: Entry): (h': History)
    requires InRange(h)
    ensures InRange(h')
  {
    var grown := h.live + [|h.adds|];
    if |grown| > cacheSize
    then History(h.adds + [e], grown[1..], h.evicted + [grown[0]], h.returned)
    else History(h.adds + [e], grown, h.evicted, h.returned)
  }

  function MatchIn(h: History, rules: seq<Rewrite>, text: string): (h': History)
    requires InRange(h)
    ensures InRange(h')
  {
    var i := Select(rules, Live(h), text, 0);
    if i == -1 then h else h.(live := Without(h.live, i), returned := h.returned + [h.live[i]])
  }

  function Apply(h: History, cacheSize: int, rules: seq<Rewrite>, op: Op): (h': History)
    requires InRange(h)
    ensures InRange(h')
  {
    match op
    case Add(e) => AddTo(h, cacheSize, e)
    case Match(text) => MatchIn(h, rules, text)
  }

  function Replay(h: History, cacheSize: int, rules: seq<Rewrite>, ops: seq<Op>): (h': History)
    requires InRange(h)
    ensures InRange(h')
    decreases |ops|
  {
    if ops == [] then h else Replay(Apply(h, cacheSize, rules, ops[0]), cacheSize, rules, ops[1..])
  }

  /** The instrumented operations are the plain ones on the live entries. */
  lemma HistoryRefines(h: History, cacheSize: int, rules: seq<Rewrite>, e: Entry, text: string)
    requires InRange(h)
    ensures Live(AddTo(h, cacheSize, e)) == Added(Live(h), cacheSize, e)
    ensures var i := Select(rules, Live(h), text, 0);
            Live(MatchIn(h, rules, text)) == if i == -1 then Live(h) else Without(Live(h), i)
  {
  }

  function Upto(n: nat): seq<nat> { seq(n, i => i) }

  predicate Increasing(s: seq<nat>) { forall i, j | 0 <= i < j < |s| :: s[i] < s[j] }

  function Capacity(cacheSize: int): nat { if cacheSize > 0 then cacheSize else 0 }

  /** Conservation: each Add has exactly one fate; entries leave at the old end first, and the
      live ones stay in the order they were added; an evicted entry has `cacheSize` newer ones. */
  ghost predicate Accounted(h: History, cacheSize: int) {
    && multiset(h.evicted) + multiset(h.live) + multiset(h.returned) == multiset(Upto(|h.adds|))
    && Increasing(h.evicted + h.live)
    && |h.live| <= Capacity(cacheSize)
    && forall j | j in h.evicted :: j + Capacity(cacheSize) < |h.adds|
  }

  lemma {:induction false} UptoContains(n: nat)
    ensures forall x: nat :: multiset(Upto(n))[x] == if x < n then 1 else 0
  {
    if n == 0 {
    } else {
      UptoContains(n - 1);
      assert Upto(n) == Upto(n - 1) + [n - 1];
    }
  }

  lemma AccountedInRange(h: History, cacheSize: int)
    requires Accounted(h, cacheSize)
    ensures InRange(h)
    ensures forall i | 0 <= i < |h.evicted + h.live| :: (h.evicted + h.live)[i] < |h.adds|
  {
    UptoContains(|h.adds|);
    var q := h.evicted + h.live;
    assert multiset(q) == multiset(h.evicted) + multiset(h.live);
    forall i | 0 <= i < |q| ensures q[i] < |h.adds| {
      assert q[i] in multiset(q);
      assert q[i] in multiset(Upto(|h.adds|));
    }
    forall i | 0 <= i < |h.live| ensures h.live[i] < |h.adds| {
      assert h.live[i] == q[|h.evicted| + i];
    }
  }

  lemma WithoutMultiset<T>(s: seq<T>, i: nat)
    requires i < |s|
    ensures multiset(s) == multiset(Without(s, i)) + multiset{s[i]}
  {
    assert s == s[..i] + [s[i]] + s[i + 1..];
  }

  lemma {:induction false} IncreasingGap(s: seq<nat>)
    requires s != [] && Increasing(s)
    ensures s[|s| - 1] >= s[0] + |s| - 1
  {
    if |s| == 1 {
    } else {
      IncreasingGap(s[..|s| - 1]);
    }
  }

  lemma GrowKeepsAccount(h: History, cacheSize: int)
    requires Accounted(h, cacheSize)
    ensures var grown := h.live + [|h.adds|];
            && Increasing(h.evicted + grown)
            && multiset(h.evicted) + multiset(grown) + multiset(h.returned) == multiset(Upto(|h.adds| + 1))
  {
    AccountedInRange(h, cacheSize);
    var n := |h.adds|;
    assert Upto(n + 1) == Upto(n) + [n];
    assert h.evicted + (h.live + [n]) == h.evicted + h.live + [n];
  }

  lemma AddKeepsAccount(h: History, cacheSize: int, e: Entry)
    requires Accounted(h, cacheSize) && InRange(h)
    ensures Accounted(AddTo(h, cacheSize, e), cacheSize)
  {
    GrowKeepsAccount(h, cacheSize);
    var h', grown := AddTo(h, cacheSize, e), h.live + [|h.adds|];
    if |grown| > cacheSize {
      EvictKeepsAccount(h.evicted, grown);
      assert multiset(h'.evicted) == multiset(h.evicted) + multiset{grown[0]};
      assert forall j | j in h'.evicted :: j in h.evicted || j == grown[0];
    }
  }

  lemma EvictKeepsAccount(evicted: seq<nat>, grown: seq<nat>)
    requires grown != [] && Increasing(evicted + grown)
    ensures multiset(grown) == multiset{grown[0]} + multiset(grown[1..])
    ensures Increasing((evicted + [grown[0]]) + grown[1..])
    ensures grown[|grown| - 1] >= grown[0] + |grown| - 1
  {
    assert grown == [grown[0]] + grown[1..];
    assert (evicted + [grown[0]]) + grown[1..] == evicted + grown;
    assert forall i | 0 <= i < |grown| :: grown[i] == (evicted + grown)[|evicted| + i];
    IncreasingGap(grown);
  }

  lemma MatchKeepsAccount(h: History, cacheSize: int, rules: seq<Rewrite>, text: string)
    requires Accounted(h, cacheSize) && InRange(h)
    ensures Accounted(MatchIn(h, rules, text), cacheSize)
  {
    var i := Select(rules, Live(h), text, 0);
    if i != -1 {
      WithoutMultiset(h.live, i);
      IncreasingWithout(h.evicted, h.live, i);
    }
  }

  lemma IncreasingWithout(evicted: seq<nat>, live: seq<nat>, i: nat)
    requires i < |live| && Increasing(evicted + live)
    ensures Increasing(evicted + Without(live, i))
  {
    var s, s' := evicted + live, evicted + Without(live, i);
    forall j, k | 0 <= j < k < |s'| ensures s'[j] < s'[k] {
      assert s'[j] == s[if j < |evicted| + i then j else j + 1];
      assert s'[k] == s[if k < |evicted| + i then k else k + 1];
    }
  }

  lemma ApplyKeepsAccount(h: History, cacheSize: int, rules: seq<Rewrite>, op: Op)
    requires Accounted(h, cacheSize) && InRange(h)
    ensures Accounted(Apply(h, cacheSize, rules, op), cacheSize)
  {
    match op
    case Add(e) => AddKeepsAccount(h, cacheSize, e);
    case Match(text) => MatchKeepsAccount(h, cacheSize, rules, text);
  }

  lemma {:induction false} ReplayKeepsAccount(h: History, cacheSize: int, rules: seq<Rewrite>, ops: seq<Op>)
    requires Accounted(h, cacheSize) && InRange(h)
    ensures Accounted(Replay(h, cacheSize, rules, ops), cacheSize)
    decreases |ops|
  {
    if ops == [] {
    } else {
      ApplyKeepsAccount(h, cacheSize, rules, ops[0]);
      ReplayKeepsAccount(Apply(h, cacheSize, rules, ops[0]), cacheSize, rules, ops[1..]);
    }
  }

  function AddOf(op: Op): seq<Entry> { if op.Add? then [op.entry] else [] }

  function AddsOf(ops: seq<Op>): seq<Entry> {
    if ops == [] then [] else AddOf(ops[0]) + AddsOf(ops[1..])
  }

  lemma ApplyRecordsAdd(h: History, cacheSize: int, rules: seq<Rewrite>, op: Op)
    requires InRange(h)
    ensures Apply(h, cacheSize, rules, op).adds == h.adds + AddOf(op)
  {
  }

  lemma {:induction false} ReplayRecordsAdds(h: History, cacheSize: int, rules: seq<Rewrite>, ops: seq<Op>)
    requires InRange(h)
    ensures Replay(h, cacheSize, rules, ops).adds == h.adds + AddsOf(ops)
    decreases |ops|
  {
    if ops == [] {
    } else {
      var h1 := Apply(h, cacheSize, rules, ops[0]);
      ApplyRecordsAdd(h, cacheSize, rules, ops[0]);
      ReplayRecordsAdds(h1, cacheSize, rules, ops[1..]);
      Associates(h.adds, AddOf(ops[0]), AddsOf(ops[1..]));
    }
  }

  lemma Associates<T>(x: seq<T>, y: seq<T>, z: seq<T>)
    ensures (x + y) + z == x + (y + z)
  {
  }

  lemma OneFate(h: History, cacheSize: int, j: nat)
    requires Accounted(h, cacheSize) && j < |h.adds|
    ensures multiset(h.evicted)[j] + multiset(h.live)[j] + multiset(h.returned)[j] == 1
  {
    UptoContains(|h.adds|);
    var kept := multiset(h.evicted) + multiset(h.live);
    assert (kept + multiset(h.returned))[j] == multiset(Upto(|h.adds|))[j];
  }

  /** After any sequence of operations on a new matcher: every Add has gone to exactly one place, so
      it was returned at most once; the live entries keep the order of their Adds; and the cache
      never outgrows its size. */
  lemma EveryAddHasOneFate(cacheSize: int, rules: seq<Rewrite>, ops: seq<Op>, j: nat)
    requires j < |AddsOf(ops)|
    ensures var h := Replay(EMPTY, cacheSize, rules, ops);
            && h.adds == AddsOf(ops)
            && Increasing(h.live) && |h.live| <= Capacity(cacheSize)
            && multiset(h.evicted)[j] + multiset(h.live)[j] + multiset(h.returned)[j] == 1
  {
    assert Upto(0) == [];
    var h := Replay(EMPTY, cacheSize, rules, ops);
    ReplayKeepsAccount(EMPTY, cacheSize, rules, ops);
    ReplayRecordsAdds(EMPTY, cacheSize, rules, ops);
    assert forall i | 0 <= i < |h.live| :: h.live[i] == (h.evicted + h.live)[|h.evicted| + i];
    OneFate(h, cacheSize, j);
  }

  /** Survival: an entry no Match consumed is live until `cacheSize` further Adds have been made. */
  lemma Survives(h: History, cacheSize: int, j: nat)
    requires Accounted(h, cacheSize)
    requires j < |h.adds| && j !in h.returned
    requires |h.adds| - 1 - j < cacheSize
    ensures j in h.live
  {
    OneFate(h, cacheSize, j);
    assert j !in multiset(h.returned);
    assert j in h.evicted || j in h.live;
  }
}
