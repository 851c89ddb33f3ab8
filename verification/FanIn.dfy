/** One scrape: the workers of `WriteMetrics`, the WaitGroup, the bounded channel, the closer and the
    consumer, as a transition system over any number of collectors and any channel capacity. */
module FanIn {
  import opened Basics

  /** What a collector returns; the samples are already rendered, the error already wrapped. */
  datatype Fetch = Metrics(samples: seq<string>) | Failure(error: string)

  /** Collectors are numbered in the order `range` visits the map. */
  datatype Message = Message(worker: nat, fetch: Fetch)

  datatype Line = Sample(text: string) | Comment(error: string)

  datatype Worker = Idle | Fetching | Sending | Sent | Done
  datatype Closer = NotStarted | Waiting | Woken | Closed
  /** `Counting(k)` is about to call `wg.Add` for worker k, `Starting(k)` to start it. */
  datatype Main = Counting(next: nat) | Starting(next: nat) | Receiving | Returned

  datatype Config = Config(fetches: seq<Fetch>, capacity: nat, hasStatus: bool) {
    predicate Valid() { capacity >= 1 }
  }

  datatype State = State(
    main: Main,
    workers: seq<Worker>,
    closer: Closer,
    wg: int,
    channel: seq<Message>,
    closed: bool,
    crashed: bool,
    received: seq<Message>,
    metricCount: nat,
    output: seq<Line>,
    err: Option<string>
  )

  datatype Action =
    | Count | Start | StartCloser
    | Fetched(worker: nat) | Send(worker: nat) | Finish(worker: nat)
    | Wake | Close
    | Receive | Return

  function Initial(c: Config): State {
    State(Counting(0), seq(|c.fetches|, _ => Idle), NotStarted, 0, [], false, false, [], 0, [], None)
  }

  function Lines(f: Fetch): seq<Line> {
    match f
    case Metrics(samples) => seq(|samples|, i requires 0 <= i < |samples| => Sample(samples[i]))
    case Failure(error) => [Comment(error)]
  }

  function Samples(f: Fetch): nat { if f.Metrics? then |f.samples| else 0 }

  predicate Is(s: State, w: nat, phase: Worker) { w < |s.workers| && s.workers[w] == phase }

  predicate Enabled(c: Config, s: State, a: Action) {
    && !s.crashed
    && match a
       case Count => s.main.Counting? && s.main.next < |c.fetches|
       case Start => s.main.Starting? && Is(s, s.main.next, Idle)
       case StartCloser => s.main == Counting(|c.fetches|)
       case Fetched(w) => Is(s, w, Fetching)
       case Send(w) => Is(s, w, Sending) && w < |c.fetches| && (s.closed || |s.channel| < c.capacity)
       case Finish(w) => Is(s, w, Sent)
       case Wake => s.closer.Waiting? && s.wg == 0
       case Close => s.closer.Woken?
       case Receive => s.main.Receiving? && s.channel != []
       case Return => s.main.Receiving? && s.channel == [] && s.closed
  }

  /** One atomic step of one goroutine. A send on a closed channel, a second close and a negative
      WaitGroup panic. */
  function Next(c: Config, s: State, a: Action): State
    requires Enabled(c, s, a)
  {
    match a
    case Count => s.(wg := s.wg + 1, main := Starting(s.main.next))
    case Start => s.(workers := s.workers[s.main.next := Fetching], main := Counting(s.main.next + 1))
    case StartCloser => s.(closer := Waiting, main := Receiving)
    case Fetched(w) => s.(workers := s.workers[w := Sending])
    case Send(w) =>
      if s.closed then s.(crashed := true)
      else s.(channel := s.channel + [Message(w, c.fetches[w])], workers := s.workers[w := Sent])
    case Finish(w) => s.(wg := s.wg - 1, crashed := s.wg - 1 < 0, workers := s.workers[w := Done])
    case Wake => s.(closer := Woken)
    case Close => if s.closed then s.(crashed := true) else s.(closed := true, closer := Closed)
    case Receive =>
      var f := s.channel[0].fetch;
      s.(channel := s.channel[1..],
         received := s.received + [s.channel[0]],
         metricCount := if c.hasStatus then s.metricCount + Samples(f) else s.metricCount,
         output := s.output + Lines(f),
         err := if f.Failure? then Some(f.error) else s.err)
    case Return => s.(main := Returned)
  }

  // ----- Sums and bags over a sequence

  function Sum<T>(s: seq<T>, f: T -> nat): nat {
    if s == [] then 0 else Sum(s[..|s| - 1], f) + f(s[|s| - 1])
  }

  function Bag<T, U>(s: seq<T>, f: T -> multiset<U>): multiset<U> {
    if s == [] then multiset{} else Bag(s[..|s| - 1], f) + f(s[|s| - 1])
  }

  lemma {:induction false} SumUpdate<T>(s: seq<T>, f: T -> nat, j: nat, x: T)
    requires j < |s|
    ensures Sum(s[j := x], f) + f(s[j]) == Sum(s, f) + f(x)
  {
    var n, s' := |s| - 1, s[j := x];
    if j < n {
      SumUpdate(s[..n], f, j, x);
      assert s'[..n] == s[..n][j := x];
    } else {
      assert s'[..n] == s[..n];
    }
  }

  lemma {:induction false} SumZero<T>(s: seq<T>, f: T -> nat)
    ensures Sum(s, f) == 0 <==> forall j | 0 <= j < |s| :: f(s[j]) == 0
  {
    if s == [] {
    } else {
      SumZero(s[..|s| - 1], f);
    }
  }

  lemma Snoc<T, U>(init: seq<T>, last: T, f: T -> multiset<U>, g: T -> nat)
    ensures Bag(init + [last], f) == Bag(init, f) + f(last)
    ensures Sum(init + [last], g) == Sum(init, g) + g(last)
  {
    assert (init + [last])[..|init|] == init;
  }

  lemma {:induction false} RemoveOne<T, U>(s: seq<T>, i: nat, f: T -> multiset<U>, g: T -> nat)
    requires i < |s|
    ensures Bag(s, f) == Bag(s[..i] + s[i + 1..], f) + f(s[i])
    ensures Sum(s, g) == Sum(s[..i] + s[i + 1..], g) + g(s[i])
  {
    var n := |s| - 1;
    var init, last, rest := s[..n], s[n], s[..i] + s[i + 1..];
    assert s == init + [last];
    Snoc(init, last, f, g);
    if i == n {
      assert rest == init;
    } else {
      RemoveOne(init, i, f, g);
      var rest' := init[..i] + init[i + 1..];
      assert rest == rest' + [last];
      Snoc(rest', last, f, g);
    }
  }

  lemma SharedLast<T>(s: seq<T>, t: seq<T>) returns (i: nat)
    requires s != [] && multiset(s) == multiset(t)
    ensures i < |t| && t[i] == s[|s| - 1]
    ensures multiset(s[..|s| - 1]) == multiset(t[..i] + t[i + 1..])
  {
    var n := |s| - 1;
    assert s == s[..n] + [s[n]];
    assert s[n] in multiset(t);
    i :| 0 <= i < |t| && t[i] == s[n];
    assert t == t[..i] + [t[i]] + t[i + 1..];
    var a, b := multiset(s[..n]), multiset(t[..i] + t[i + 1..]);
    assert a + multiset{s[n]} == b + multiset{s[n]};
    assert forall x :: (a + multiset{s[n]})[x] == (b + multiset{s[n]})[x] ==> a[x] == b[x];
  }

  /** Bags and sums do not depend on the order. */
  lemma {:induction false} Permuted<T, U>(s: seq<T>, t: seq<T>, f: T -> multiset<U>, g: T -> nat)
    requires multiset(s) == multiset(t)
    ensures Bag(s, f) == Bag(t, f) && Sum(s, g) == Sum(t, g)
    decreases |s|
  {
    if s == [] {
      assert |multiset(t)| == |t|;
    } else {
      var i := SharedLast(s, t);
      Permuted(s[..|s| - 1], t[..i] + t[i + 1..], f, g);
      RemoveOne(t, i, f, g);
    }
  }

  /** Counted by the WaitGroup: started, and its deferred `Done` not yet run. */
  function Unfinished(w: Worker): nat { if w.Fetching? || w.Sending? || w.Sent? then 1 else 0 }

  // ----- Messages

  function AllMessages(fetches: seq<Fetch>): seq<Message> {
    seq(|fetches|, j requires 0 <= j < |fetches| => Message(j, fetches[j]))
  }

  predicate HasSent(w: Worker) { w.Sent? || w.Done? }

  /** What the j-th worker still has to send. */
  function Owed(fetches: seq<Fetch>, ws: seq<Worker>, j: nat): multiset<Message>
    requires j < |ws| <= |fetches|
  {
    if HasSent(ws[j]) then multiset{} else multiset{Message(j, fetches[j])}
  }

  /** The messages the first `n` workers still have to send. */
  function Unsent(fetches: seq<Fetch>, ws: seq<Worker>, n: nat): multiset<Message>
    requires n <= |ws| <= |fetches|
  {
    if n == 0 then multiset{} else Unsent(fetches, ws, n - 1) + Owed(fetches, ws, n - 1)
  }

  lemma {:induction false} UnsentSame(fetches: seq<Fetch>, ws: seq<Worker>, ws': seq<Worker>, n: nat)
    requires n <= |ws| == |ws'| <= |fetches|
    requires forall i | 0 <= i < n :: HasSent(ws[i]) == HasSent(ws'[i])
    ensures Unsent(fetches, ws, n) == Unsent(fetches, ws', n)
  {
    if n == 0 {
    } else {
      UnsentSame(fetches, ws, ws', n - 1);
      assert Owed(fetches, ws, n - 1) == Owed(fetches, ws', n - 1);
    }
  }

  lemma {:induction false} UnsentSend(fetches: seq<Fetch>, ws: seq<Worker>, j: nat, n: nat)
    requires j < n <= |ws| <= |fetches| && !HasSent(ws[j])
    ensures Unsent(fetches, ws, n) == Unsent(fetches, ws[j := Sent], n) + multiset{Message(j, fetches[j])}
  {
    var ws', m := ws[j := Sent], multiset{Message(j, fetches[j])};
    if n == j + 1 {
      UnsentSame(fetches, ws, ws', j);
      assert Owed(fetches, ws, j) == m && Owed(fetches, ws', j) == multiset{};
    } else {
      UnsentSend(fetches, ws, j, n - 1);
      assert Owed(fetches, ws, n - 1) == Owed(fetches, ws', n - 1);
      Regroup(Unsent(fetches, ws', n - 1), m, Owed(fetches, ws, n - 1));
    }
  }

  lemma Regroup<T>(a: multiset<T>, b: multiset<T>, c: multiset<T>)
    ensures (a + b) + c == (a + c) + b
  {
  }

  lemma {:induction false} UnsentAtFirst(fetches: seq<Fetch>, ws: seq<Worker>, n: nat)
    requires n <= |ws| <= |fetches| && forall j | 0 <= j < n :: !HasSent(ws[j])
    ensures Unsent(fetches, ws, n) == multiset(AllMessages(fetches)[..n])
  {
    if n == 0 {
      assert AllMessages(fetches)[..0] == [];
    } else {
      assert Owed(fetches, ws, n - 1) == multiset{Message(n - 1, fetches[n - 1])};
      UnsentAtFirst(fetches, ws, n - 1);
      AllMessagesUpTo(fetches, n - 1);
    }
  }

  lemma AllMessagesUpTo(fetches: seq<Fetch>, n: nat)
    requires n < |fetches|
    ensures multiset(AllMessages(fetches)[..n + 1])
         == multiset(AllMessages(fetches)[..n]) + multiset{Message(n, fetches[n])}
  {
    assert AllMessages(fetches)[..n + 1] == AllMessages(fetches)[..n] + [Message(n, fetches[n])];
    SnocMultiset(AllMessages(fetches)[..n], Message(n, fetches[n]));
  }

  lemma SnocMultiset<T>(s: seq<T>, x: T)
    ensures multiset(s + [x]) == multiset(s) + multiset{x}
  {
  }

  lemma {:induction false} UnsentAtLast(fetches: seq<Fetch>, ws: seq<Worker>, n: nat)
    requires n <= |ws| <= |fetches| && forall j | 0 <= j < n :: HasSent(ws[j])
    ensures Unsent(fetches, ws, n) == multiset{}
  {
    if n == 0 {
    } else {
      UnsentAtLast(fetches, ws, n - 1);
    }
  }

  // ----- What the consumer accumulates

  function Flat(ms: seq<Message>): seq<Line> {
    if ms == [] then [] else Flat(ms[..|ms| - 1]) + Lines(ms[|ms| - 1].fetch)
  }

  function LineBag(m: Message): multiset<Line> { multiset(Lines(m.fetch)) }

  function SampleCount(m: Message): nat { Samples(m.fetch) }

  predicate AllSucceeded(ms: seq<Message>) { forall i | 0 <= i < |ms| :: ms[i].fetch.Metrics? }

  /** The i-th message is the last failure among them, with this error. */
  predicate LastFailure(ms: seq<Message>, i: int, error: string) {
    0 <= i < |ms| && ms[i].fetch == Failure(error) && AllSucceeded(ms[i + 1..])
  }

  // ----- The invariant

  /** How many workers the main goroutine has started. */
  function Started(c: Config, m: Main): nat { if m.Counting? || m.Starting? then m.next else |c.fetches| }

  ghost predicate Structure(c: Config, s: State) {
    && |s.workers| == |c.fetches|
    && Started(c, s.main) <= |c.fetches| && (s.main.Starting? ==> s.main.next < |c.fetches|)
    && (forall j | 0 <= j < |s.workers| :: s.workers[j].Idle? <==> j >= Started(c, s.main))
    && (s.closer.NotStarted? <==> s.main.Counting? || s.main.Starting?)
    && (s.closer.Woken? || s.closer.Closed? ==> forall j | 0 <= j < |s.workers| :: s.workers[j].Done?)
    && (s.closed <==> s.closer.Closed?)
    && (s.main.Returned? ==> s.closed && s.channel == [])
    && |s.channel| <= c.capacity
  }

  /** The WaitGroup counts exactly the workers spawned, or about to be, and unfinished. */
  ghost predicate GroupCounts(c: Config, s: State) {
    s.wg == Sum(s.workers, Unfinished) + if s.main.Starting? then 1 else 0
  }

  /** No message is lost or duplicated. */
  ghost predicate Conserved(c: Config, s: State)
    requires |s.workers| == |c.fetches|
  {
    multiset(s.received) + multiset(s.channel) + Unsent(c.fetches, s.workers, |s.workers|)
      == multiset(AllMessages(c.fetches))
  }

  ghost predicate Accumulated(c: Config, s: State) {
    && s.output == Flat(s.received)
    && s.metricCount == (if c.hasStatus then Sum(s.received, SampleCount) else 0)
    && (s.err.None? <==> AllSucceeded(s.received))
    && (s.err.Some? ==> exists i :: LastFailure(s.received, i, s.err.value))
  }

  ghost predicate Inv(c: Config, s: State) {
    !s.crashed && Structure(c, s) && GroupCounts(c, s) && Conserved(c, s) && Accumulated(c, s)
  }

  lemma InitialInv(c: Config)
    ensures Inv(c, Initial(c))
  {
    var s := Initial(c);
    SumZero(s.workers, Unfinished);
    UnsentAtFirst(c.fetches, s.workers, |s.workers|);
    assert AllMessages(c.fetches)[..|s.workers|] == AllMessages(c.fetches);
  }

  lemma StructureKept(c: Config, s: State, a: Action)
    requires c.Valid() && Structure(c, s) && GroupCounts(c, s) && Enabled(c, s, a)
    ensures Structure(c, Next(c, s, a))
  {
    SumZero(s.workers, Unfinished);
  }

  /** No send meets a closed channel, no close a closed one, and the group never goes negative. */
  lemma NoCrash(c: Config, s: State, a: Action)
    requires Structure(c, s) && GroupCounts(c, s) && Enabled(c, s, a)
    ensures !Next(c, s, a).crashed
  {
    SumZero(s.workers, Unfinished);
  }

  lemma GroupKept(c: Config, s: State, a: Action)
    requires Structure(c, s) && GroupCounts(c, s) && Enabled(c, s, a)
    ensures GroupCounts(c, Next(c, s, a))
  {
    NoCrash(c, s, a);
    match a
    case Start => SumUpdate(s.workers, Unfinished, s.main.next, Fetching);
    case Fetched(w) => SumUpdate(s.workers, Unfinished, w, Sending);
    case Send(w) => SumUpdate(s.workers, Unfinished, w, Sent);
    case Finish(w) => SumUpdate(s.workers, Unfinished, w, Done);
    case _ =>
  }

  lemma MoveConserves(c: Config, s: State, j: nat, w: Worker)
    requires |s.workers| == |c.fetches| && j < |s.workers| && HasSent(s.workers[j]) == HasSent(w)
    requires Conserved(c, s)
    ensures Conserved(c, s.(workers := s.workers[j := w]))
  {
    UnsentSame(c.fetches, s.workers, s.workers[j := w], |s.workers|);
  }

  lemma SendConserves(c: Config, s: State, w: nat)
    requires |s.workers| == |c.fetches| && w < |s.workers| && !HasSent(s.workers[w])
    requires Conserved(c, s)
    ensures var m := Message(w, c.fetches[w]);
            Conserved(c, s.(channel := s.channel + [m], workers := s.workers[w := Sent]))
  {
    UnsentSend(c.fetches, s.workers, w, |s.workers|);
  }

  lemma ReceiveConserves(c: Config, s: State)
    requires |s.workers| == |c.fetches| && s.channel != []
    requires Conserved(c, s)
    ensures Conserved(c, s.(channel := s.channel[1..], received := s.received + [s.channel[0]]))
  {
    assert s.channel == [s.channel[0]] + s.channel[1..];
  }

  lemma ConservedKept(c: Config, s: State, a: Action)
    requires Structure(c, s) && GroupCounts(c, s) && Conserved(c, s) && Enabled(c, s, a)
    ensures |Next(c, s, a).workers| == |c.fetches| && Conserved(c, Next(c, s, a))
  {
    NoCrash(c, s, a);
    match a
    case Start => MoveConserves(c, s, s.main.next, Fetching);
    case Fetched(w) => MoveConserves(c, s, w, Sending);
    case Send(w) => SendConserves(c, s, w);
    case Finish(w) => MoveConserves(c, s, w, Done);
    case Receive => ReceiveConserves(c, s);
    case _ =>
  }

  /** Receiving one more message, as the consumer's fields see it. */
  lemma ReceivedOneMore(received: seq<Message>, m: Message)
    ensures Flat(received + [m]) == Flat(received) + Lines(m.fetch)
    ensures Sum(received + [m], SampleCount) == Sum(received, SampleCount) + Samples(m.fetch)
    ensures AllSucceeded(received + [m]) <==> AllSucceeded(received) && m.fetch.Metrics?
  {
    var more, n := received + [m], |received|;
    assert more[..n] == received && more[n] == m;
    assert forall i | 0 <= i < n :: more[i] == received[i];
    assert AllSucceeded(more) ==> forall i | 0 <= i < n :: more[i].fetch.Metrics?;
  }

  lemma AccumulatedKept(c: Config, s: State, a: Action)
    requires Accumulated(c, s) && Enabled(c, s, a)
    ensures Accumulated(c, Next(c, s, a))
  {
    if a.Receive? {
      ReceiveAccumulates(c, s);
    } else {
      var s' := Next(c, s, a);
      assert s'.received == s.received && s'.output == s.output && s'.err == s.err;
      assert s'.metricCount == s.metricCount;
    }
  }

  lemma ReceiveAccumulates(c: Config, s: State)
    requires Accumulated(c, s) && Enabled(c, s, Receive)
    ensures Accumulated(c, Next(c, s, Receive))
  {
    ReceivedOneMore(s.received, s.channel[0]);
    LastFailureKept(s, s.channel[0]);
  }

  lemma LastFailureKept(s: State, m: Message)
    requires s.err.Some? ==> exists i :: LastFailure(s.received, i, s.err.value)
    ensures var received := s.received + [m];
            if m.fetch.Failure? then LastFailure(received, |s.received|, m.fetch.error)
            else s.err.Some? ==> exists i :: LastFailure(received, i, s.err.value)
  {
    if m.fetch.Metrics? && s.err.Some? {
      var i :| LastFailure(s.received, i, s.err.value);
      assert (s.received + [m])[i + 1..] == s.received[i + 1..] + [m];
      assert LastFailure(s.received + [m], i, s.err.value);
    }
  }

  lemma StepKeepsInv(c: Config, s: State, a: Action)
    requires c.Valid() && Inv(c, s) && Enabled(c, s, a)
    ensures Inv(c, Next(c, s, a))
  {
    NoCrash(c, s, a);
    StructureKept(c, s, a);
    GroupKept(c, s, a);
    ConservedKept(c, s, a);
    AccumulatedKept(c, s, a);
  }

  // ----- Every run ends, and says the same thing

  function Rank(w: Worker): nat {
    match w
    case Idle => 5
    case Fetching => 4
    case Sending => 3
    case Sent => 1
    case Done => 0
  }

  function MainRank(c: Config, m: Main): int {
    match m
    case Counting(k) => 2 * (|c.fetches| - k) + 2
    case Starting(k) => 2 * (|c.fetches| - k) + 1
    case Receiving => 1
    case Returned => 0
  }

  function CloserRank(closer: Closer): int {
    match closer case NotStarted => 3 case Waiting => 2 case Woken => 1 case Closed => 0
  }

  function Measure(c: Config, s: State): int {
    Sum(s.workers, Rank) + |s.channel| + MainRank(c, s.main) + CloserRank(s.closer)
  }

  lemma StepDecreases(c: Config, s: State, a: Action)
    requires Structure(c, s) && GroupCounts(c, s) && Enabled(c, s, a)
    ensures Measure(c, Next(c, s, a)) < Measure(c, s)
  {
    NoCrash(c, s, a);
    match a
    case Start => SumUpdate(s.workers, Rank, s.main.next, Fetching);
    case Fetched(w) => SumUpdate(s.workers, Rank, w, Sending);
    case Send(w) => SumUpdate(s.workers, Rank, w, Sent);
    case Finish(w) => SumUpdate(s.workers, Rank, w, Done);
    case _ =>
  }

  lemma MeasureBounded(c: Config, s: State)
    requires Structure(c, s)
    ensures Measure(c, s) >= 0
  {
  }

  /** Until the consumer returns there is always something to do: no deadlock. */
  lemma Progress(c: Config, s: State) returns (a: Action)
    requires c.Valid() && Inv(c, s) && !s.main.Returned?
    ensures Enabled(c, s, a)
  {
    SumZero(s.workers, Unfinished);
    if s.main.Counting? {
      a := if s.main.next < |c.fetches| then Count else StartCloser;
    } else if s.main.Starting? {
      a := Start;
    } else if s.channel != [] {
      a := Receive;
    } else if s.closed {
      a := Return;
    } else if s.closer.Woken? {
      a := Close;
    } else if s.wg == 0 {
      a := Wake;
    } else {
      var w: nat :| w < |s.workers| && Unfinished(s.workers[w]) != 0;
      a := if s.workers[w].Fetching? then Fetched(w) else if s.workers[w].Sending? then Send(w) else Finish(w);
    }
  }

  predicate Runs(c: Config, s: State, actions: seq<Action>)
    decreases |actions|
  {
    actions == [] || (Enabled(c, s, actions[0]) && Runs(c, Next(c, s, actions[0]), actions[1..]))
  }

  function Run(c: Config, s: State, actions: seq<Action>): State
    requires Runs(c, s, actions)
    decreases |actions|
  {
    if actions == [] then s else Run(c, Next(c, s, actions[0]), actions[1..])
  }

  /** Safety over every run, and a bound on its length. */
  lemma {:induction false} RunIsSafeAndShort(c: Config, s: State, actions: seq<Action>)
    requires c.Valid() && Inv(c, s) && Runs(c, s, actions)
    ensures var s' := Run(c, s, actions); Inv(c, s') && Measure(c, s') + |actions| <= Measure(c, s)
    decreases |actions|
  {
    if actions == [] {
    } else {
      StepDecreases(c, s, actions[0]);
      StepKeepsInv(c, s, actions[0]);
      RunIsSafeAndShort(c, Next(c, s, actions[0]), actions[1..]);
    }
  }

  // ----- Accounting does not depend on the schedule

  lemma {:induction false} FlatIsBag(ms: seq<Message>)
    ensures multiset(Flat(ms)) == Bag(ms, LineBag)
  {
    if ms == [] {
    } else {
      FlatIsBag(ms[..|ms| - 1]);
    }
  }

  lemma LinesPermuted(ms: seq<Message>, ms': seq<Message>)
    requires multiset(ms) == multiset(ms')
    ensures multiset(Flat(ms)) == multiset(Flat(ms')) && Sum(ms, SampleCount) == Sum(ms', SampleCount)
  {
    Permuted(ms, ms', LineBag, SampleCount);
    FlatIsBag(ms);
    FlatIsBag(ms');
  }

  lemma AllMessagesSucceeded(fetches: seq<Fetch>)
    ensures AllSucceeded(AllMessages(fetches)) <==> forall j | 0 <= j < |fetches| :: fetches[j].Metrics?
  {
    assert forall j | 0 <= j < |fetches| :: AllMessages(fetches)[j].fetch == fetches[j];
  }

  lemma ErrorIsReal(ms: seq<Message>, fetches: seq<Fetch>, error: string)
    requires multiset(ms) == multiset(AllMessages(fetches))
    requires exists i :: LastFailure(ms, i, error)
    ensures Failure(error) in fetches
  {
    var i :| LastFailure(ms, i, error);
    assert ms[i] in multiset(AllMessages(fetches));
    var j :| 0 <= j < |fetches| && AllMessages(fetches)[j] == ms[i];
    assert fetches[j] == Failure(error);
  }

  lemma SucceededPermuted(ms: seq<Message>, ms': seq<Message>)
    requires multiset(ms) == multiset(ms')
    ensures AllSucceeded(ms) ==> AllSucceeded(ms')
  {
    forall i | 0 <= i < |ms'| && AllSucceeded(ms) ensures ms'[i].fetch.Metrics? {
      assert ms'[i] in multiset(ms);
    }
  }

  lemma {:induction false} AllSamples(fetches: seq<Fetch>)
    ensures Sum(AllMessages(fetches), SampleCount) == Sum(fetches, Samples)
  {
    if fetches == [] {
    } else {
      var n := |fetches| - 1;
      AllSamples(fetches[..n]);
      assert AllMessages(fetches)[..n] == AllMessages(fetches[..n]);
    }
  }

  // ----- What was written, line by line

  /** How often the successful collectors returned this sample. */
  function Occurrences(fetches: seq<Fetch>, text: string): nat {
    if fetches == [] then 0
    else
      var f := fetches[|fetches| - 1];
      Occurrences(fetches[..|fetches| - 1], text) + if f.Metrics? then multiset(f.samples)[text] else 0
  }

  function SampleLines(output: seq<Line>): nat {
    if output == [] then 0
    else SampleLines(output[..|output| - 1]) + if output[|output| - 1].Sample? then 1 else 0
  }

  /** The samples stand in the output from line `k` on, in their order and with nothing in between. */
  predicate WrittenAt(output: seq<Line>, samples: seq<string>, k: nat) {
    k + |samples| <= |output| && forall i | 0 <= i < |samples| :: output[k + i] == Sample(samples[i])
  }

  ghost predicate Written(output: seq<Line>, samples: seq<string>) { exists k: nat :: WrittenAt(output, samples, k) }

  /** Every sample and every error has its line as often as it was returned, each collector's samples
      stand together, and the metric count is the number of sample lines. */
  ghost predicate Accounts(c: Config, output: seq<Line>, metricCount: nat) {
    && (forall text :: multiset(output)[Sample(text)] == Occurrences(c.fetches, text))
    && (forall error :: multiset(output)[Comment(error)] == multiset(c.fetches)[Failure(error)])
    && (forall j | 0 <= j < |c.fetches| && c.fetches[j].Metrics? :: Written(output, c.fetches[j].samples))
    && metricCount == if c.hasStatus then SampleLines(output) else 0
  }

  lemma {:induction false} SampleBlock(samples: seq<string>, text: string, error: string)
    ensures var block := Lines(Metrics(samples));
            && multiset(block)[Sample(text)] == multiset(samples)[text] && multiset(block)[Comment(error)] == 0
            && SampleLines(block) == |samples|
  {
    if samples == [] {
    } else {
      var init, last := samples[..|samples| - 1], samples[|samples| - 1];
      SampleBlock(init, text, error);
      assert samples == init + [last];
      assert Lines(Metrics(samples)) == Lines(Metrics(init)) + [Sample(last)];
      assert (Lines(Metrics(init)) + [Sample(last)])[..|init|] == Lines(Metrics(init));
    }
  }

  lemma {:induction false} SampleLinesAppend(a: seq<Line>, b: seq<Line>)
    ensures SampleLines(a + b) == SampleLines(a) + SampleLines(b)
  {
    if b == [] {
      assert a + b == a;
    } else {
      var n := |b| - 1;
      SampleLinesAppend(a, b[..n]);
      assert (a + b)[..|a| + n] == a + b[..n];
    }
  }

  lemma {:induction false} FlatSampleLines(ms: seq<Message>)
    ensures SampleLines(Flat(ms)) == Sum(ms, SampleCount)
  {
    if ms == [] {
    } else {
      var n := |ms| - 1;
      FlatSampleLines(ms[..n]);
      SampleLinesAppend(Flat(ms[..n]), Lines(ms[n].fetch));
      if ms[n].fetch.Metrics? {
        SampleBlock(ms[n].fetch.samples, "", "");
      } else {
        assert Lines(ms[n].fetch)[..0] == [];
      }
    }
  }

  lemma FetchCounts(f: Fetch, text: string, error: string)
    ensures multiset(Lines(f))[Sample(text)] == if f.Metrics? then multiset(f.samples)[text] else 0
    ensures multiset(Lines(f))[Comment(error)] == if f == Failure(error) then 1 else 0
  {
    if f.Metrics? {
      SampleBlock(f.samples, text, error);
    }
  }

  lemma FlatLast(fetches: seq<Fetch>)
    requires fetches != []
    ensures var init, last := fetches[..|fetches| - 1], fetches[|fetches| - 1];
            && multiset(Flat(AllMessages(fetches))) == multiset(Flat(AllMessages(init))) + multiset(Lines(last))
            && multiset(fetches) == multiset(init) + multiset{last}
  {
    var n := |fetches| - 1;
    assert AllMessages(fetches)[..n] == AllMessages(fetches[..n]);
    assert fetches == fetches[..n] + [fetches[n]];
  }

  lemma {:induction false} FlatCounts(fetches: seq<Fetch>, text: string, error: string)
    ensures var lines := multiset(Flat(AllMessages(fetches)));
            && lines[Sample(text)] == Occurrences(fetches, text)
            && lines[Comment(error)] == multiset(fetches)[Failure(error)]
  {
    if fetches == [] {
    } else {
      var n := |fetches| - 1;
      FlatCounts(fetches[..n], text, error);
      FetchCounts(fetches[n], text, error);
      FlatLast(fetches);
    }
  }

  lemma {:induction false} FlatKeepsBlocks(ms: seq<Message>, i: nat)
    requires i < |ms| && ms[i].fetch.Metrics?
    ensures Written(Flat(ms), ms[i].fetch.samples)
    decreases |ms|
  {
    var n, samples := |ms| - 1, ms[i].fetch.samples;
    var before := Flat(ms[..n]);
    assert Flat(ms) == before + Lines(ms[n].fetch);
    if i < n {
      FlatKeepsBlocks(ms[..n], i);
      var k: nat :| WrittenAt(before, samples, k);
      assert WrittenAt(Flat(ms), samples, k);
    } else {
      assert WrittenAt(Flat(ms), samples, |before|);
    }
  }

  lemma ReturnedBlocks(ms: seq<Message>, fetches: seq<Fetch>)
    requires multiset(ms) == multiset(AllMessages(fetches))
    ensures forall j | 0 <= j < |fetches| && fetches[j].Metrics? :: Written(Flat(ms), fetches[j].samples)
  {
    forall j | 0 <= j < |fetches| && fetches[j].Metrics? ensures Written(Flat(ms), fetches[j].samples) {
      assert AllMessages(fetches)[j] in multiset(ms);
      var i :| 0 <= i < |ms| && ms[i] == AllMessages(fetches)[j];
      FlatKeepsBlocks(ms, i);
    }
  }

  lemma ReturnedLines(c: Config, s: State)
    requires Accumulated(c, s) && multiset(s.received) == multiset(AllMessages(c.fetches))
    ensures Accounts(c, s.output, s.metricCount)
  {
    LinesPermuted(s.received, AllMessages(c.fetches));
    FlatSampleLines(s.received);
    ReturnedBlocks(s.received, c.fetches);
    forall text ensures multiset(s.output)[Sample(text)] == Occurrences(c.fetches, text) {
      FlatCounts(c.fetches, text, "");
    }
    forall error ensures multiset(s.output)[Comment(error)] == multiset(c.fetches)[Failure(error)] {
      FlatCounts(c.fetches, "", error);
    }
  }

  /** However the goroutines interleave, when the consumer returns it has received exactly one
      message from each collector, written a line for every sample and every error, counted the
      samples, and returns an error exactly when some collector failed. */
  lemma ScrapeAccounts(c: Config, actions: seq<Action>)
    requires c.Valid() && Runs(c, Initial(c), actions)
    requires Run(c, Initial(c), actions).main.Returned?
    ensures var s := Run(c, Initial(c), actions);
            && multiset(s.received) == multiset(AllMessages(c.fetches))
            && Accounts(c, s.output, s.metricCount)
            && multiset(s.output) == multiset(Flat(AllMessages(c.fetches)))
            && s.metricCount == (if c.hasStatus then Sum(c.fetches, Samples) else 0)
            && (s.err.None? <==> forall j | 0 <= j < |c.fetches| :: c.fetches[j].Metrics?)
            && (s.err.Some? ==> Failure(s.err.value) in c.fetches)
            && (s.err.Some? ==> exists i :: LastFailure(s.received, i, s.err.value))
  {
    var s := Run(c, Initial(c), actions);
    InitialInv(c);
    RunIsSafeAndShort(c, Initial(c), actions);
    ReturnedReceivedAll(c, s);
    ReturnedAccounts(c, s);
    ReturnedLines(c, s);
  }

  lemma ReturnedReceivedAll(c: Config, s: State)
    requires Structure(c, s) && Conserved(c, s) && s.main.Returned?
    ensures multiset(s.received) == multiset(AllMessages(c.fetches))
  {
    UnsentAtLast(c.fetches, s.workers, |s.workers|);
  }

  lemma ReturnedAccounts(c: Config, s: State)
    requires Accumulated(c, s) && multiset(s.received) == multiset(AllMessages(c.fetches))
    ensures && multiset(s.output) == multiset(Flat(AllMessages(c.fetches)))
            && s.metricCount == (if c.hasStatus then Sum(c.fetches, Samples) else 0)
            && (s.err.None? <==> forall j | 0 <= j < |c.fetches| :: c.fetches[j].Metrics?)
            && (s.err.Some? ==> Failure(s.err.value) in c.fetches)
  {
    var all := AllMessages(c.fetches);
    LinesPermuted(s.received, all);
    AllSamples(c.fetches);
    SucceededPermuted(s.received, all);
    SucceededPermuted(all, s.received);
    AllMessagesSucceeded(c.fetches);
    if s.err.Some? {
      ErrorIsReal(s.received, c.fetches, s.err.value);
    }
  }

  /** A scrape under any scheduler: whatever enabled step is taken next, it terminates. */
  method WriteMetrics(c: Config) returns (output: seq<Line>, metricCount: nat, err: Option<string>)
    requires c.Valid()
    ensures Accounts(c, output, metricCount)
    ensures multiset(output) == multiset(Flat(AllMessages(c.fetches)))
    ensures metricCount == if c.hasStatus then Sum(c.fetches, Samples) else 0
    ensures err.None? <==> forall j | 0 <= j < |c.fetches| :: c.fetches[j].Metrics?
    ensures err.Some? ==> Failure(err.value) in c.fetches
  {
    var s := Initial(c);
    InitialInv(c);
    while !s.main.Returned?
      invariant Inv(c, s)
      decreases Measure(c, s)
    {
      ghost var able := Progress(c, s);
      var a: Action :| Enabled(c, s, a);
      StepDecreases(c, s, a);
      StepKeepsInv(c, s, a);
      MeasureBounded(c, s);
      s := Next(c, s, a);
    }
    ReturnedReceivedAll(c, s);
    ReturnedAccounts(c, s);
    ReturnedLines(c, s);
    return s.output, s.metricCount, s.err;
  }
}
