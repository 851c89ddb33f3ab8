/** Talking to the UPS daemon: at most ten connection attempts, then an hour's pause. */
module Ups {
  import opened Basics

  const MAX_ATTEMPTS: nat := 10

  /** `Broken` is a syscall error ECONNRESET or EPIPE, which drops the connection. */
  datatype Error = Broken | Other

  datatype Fetched<T> = Ok(value: T) | Err(error: Error)

  /** What `nut.Connect` returns; the client may lack a protocol version even without an error. */
  datatype Dial = Dial(version: string, error: Option<Error>)

  /** The clock readings of one call, and the daemon's answers should it be asked. */
  datatype Call = Call(since: int, dialAt: int, stamp: int,
                       dial: Dial, list: Fetched<seq<string>>, variables: string -> Option<Error>)

  /** An empty `version` is a client that is not connected; `connErrAt` is None for the zero time. */
  datatype State = State(version: string, connErr: Option<Error>, connErrAt: Option<int>,
                         attempts: nat, upsList: Option<seq<string>>)

  const INITIAL := State("", None, None, 0, None)

  // ----- One call

  predicate HourPassed(since: Option<int>, now: int) { since.None? || now - since.value >= HOUR }

  function Refilled(s: State, now: int): State {
    if s.attempts >= MAX_ATTEMPTS && HourPassed(s.connErrAt, now) then s.(attempts := 0) else s
  }

  predicate Connects(s: State, c: Call) {
    s.version == "" && Refilled(s, c.since).attempts < MAX_ATTEMPTS
  }

  /** The connection phase; without a new attempt the stored error stands. */
  function Connected(s: State, c: Call): State {
    if Connects(s, c)
    then Refilled(s, c.since).(attempts := Refilled(s, c.since).attempts + 1,
                               version := c.dial.version, connErr := c.dial.error)
    else s
  }

  /** The deferred function: a broken connection is forgotten. */
  function Deferred(s: State, e: Error): State { if e.Broken? then s.(version := "") else s }

  /** The UPSes are asked in turn until one fails. */
  function FirstError(names: seq<string>, variables: string -> Option<Error>): Option<Error> {
    if names == [] then None
    else if variables(names[0]).Some? then variables(names[0])
    else FirstError(names[1..], variables)
  }

  function Queried(s: State, c: Call): (State, Option<Error>) {
    if s.upsList.None? && c.list.Err? then (Deferred(s, c.list.error), Some(c.list.error))
    else
      var s' := if s.upsList.None? then s.(upsList := Some(c.list.value)) else s;
      var e := FirstError(s'.upsList.value, c.variables);
      (if e.Some? then Deferred(s', e.value) else s', e)
  }

  function Stats(s: State, c: Call): (State, Option<Error>) {
    var s1 := Connected(s, c);
    if s.version == "" && s1.connErr.Some?
    then (Deferred(s1.(connErrAt := Some(c.stamp)), s1.connErr.value), s1.connErr)
    else Queried(s1, c)
  }

  /** The retry wrapper: a broken connection is tried once more. */
  function WithRetry(s: State, c1: Call, c2: Call): (State, Option<Error>) {
    var (s1, e) := Stats(s, c1);
    if e == Some(Broken) then Stats(s1, c2) else (s1, e)
  }

  // ----- Runs

  /** The lock serialises calls, so clock readings follow each other. */
  predicate Ordered(from: int, calls: seq<Call>)
    decreases |calls|
  {
    calls == [] ||
    (from <= calls[0].since <= calls[0].dialAt <= calls[0].stamp && Ordered(calls[0].stamp, calls[1..]))
  }

  datatype Attempt = Attempt(at: int, failed: bool)

  function AttemptOf(s: State, c: Call): seq<Attempt> {
    if Connects(s, c) then [Attempt(c.dialAt, c.dial.error.Some?)] else []
  }

  /** The connection attempts of a run. */
  function Attempts(s: State, calls: seq<Call>): seq<Attempt>
    decreases |calls|
  {
    if calls == [] then [] else AttemptOf(s, calls[0]) + Attempts(Stats(s, calls[0]).0, calls[1..])
  }

  function Before(attempts: seq<Attempt>, limit: int): nat {
    if attempts == [] then 0 else (if attempts[0].at < limit then 1 else 0) + Before(attempts[1..], limit)
  }

  function FailedWithin(attempts: seq<Attempt>, from: int, to: int): nat {
    if attempts == [] then 0
    else (if attempts[0].failed && from <= attempts[0].at < to then 1 else 0) + FailedWithin(attempts[1..], from, to)
  }

  /** The wrapper adds calls to a run, so whatever holds of runs of calls holds with it. It succeeds
      exactly when the first call does, or when that one finds the connection broken and the call that
      follows from its state succeeds; otherwise its error is that of the last call made. */
  lemma RetryIsRun(s: State, c1: Call, c2: Call)
    ensures var calls := if Stats(s, c1).1 == Some(Broken) then [c1, c2] else [c1];
            WithRetry(s, c1, c2).0 == Final(s, calls)
    ensures Retried(s, c1, c2, WithRetry(s, c1, c2).1)
  {
    var s1 := Stats(s, c1).0;
    assert Final(s1, [c2]) == Final(Stats(s1, c2).0, []);
    assert [c1, c2][1..] == [c2];
  }

  predicate Retried(s: State, c1: Call, c2: Call, e: Option<Error>) {
    var (s1, e1) := Stats(s, c1);
    var e2 := Stats(s1, c2).1;
    && (e.None? <==> e1.None? || (e1 == Some(Broken) && e2.None?))
    && (e.Some? ==> e == if e1 == Some(Broken) then e2 else e1)
  }

  function Final(s: State, calls: seq<Call>): State
    decreases |calls|
  {
    if calls == [] then s else Final(Stats(s, calls[0]).0, calls[1..])
  }

  lemma StatsEffect(s: State, c: Call)
    requires s.attempts <= MAX_ATTEMPTS
    ensures var s' := Stats(s, c).0;
            && s'.attempts == Connected(s, c).attempts <= MAX_ATTEMPTS
            && (s'.connErrAt == s.connErrAt || s'.connErrAt == Some(c.stamp))
            && (Connects(s, c) && c.dial.error.Some? ==> s'.connErrAt == Some(c.stamp))
            && (Connects(s, c) ==> s'.attempts >= 1)
            && (!Connects(s, c) ==> s'.attempts == s.attempts)
  {
  }

  lemma {:induction false} AttemptsStayBounded(s: State, calls: seq<Call>)
    requires s.attempts <= MAX_ATTEMPTS
    ensures Final(s, calls).attempts <= MAX_ATTEMPTS
    decreases |calls|
  {
    if calls == [] {
    } else {
      StatsEffect(s, calls[0]);
      AttemptsStayBounded(Stats(s, calls[0]).0, calls[1..]);
    }
  }

  lemma {:induction false} NoneBefore(s: State, calls: seq<Call>, from: int, limit: int)
    requires Ordered(from, calls) && limit <= from
    ensures Before(Attempts(s, calls), limit) == 0
    decreases |calls|
  {
    if calls == [] {
    } else {
      NoneBefore(Stats(s, calls[0]).0, calls[1..], calls[0].stamp, limit);
      var rest := Attempts(Stats(s, calls[0]).0, calls[1..]);
      if Connects(s, calls[0]) {
        assert (AttemptOf(s, calls[0]) + rest)[1..] == rest;
      } else {
        assert AttemptOf(s, calls[0]) + rest == rest;
      }
    }
  }

  /** While the last failure is less than an hour old, the attempts left are all there will be. */
  lemma {:induction false} HourAfterFailure(s: State, calls: seq<Call>, from: int, failure: int)
    requires s.attempts <= MAX_ATTEMPTS
    requires s.connErrAt.Some? && failure <= s.connErrAt.value <= from && Ordered(from, calls)
    ensures Before(Attempts(s, calls), failure + HOUR) <= MAX_ATTEMPTS - s.attempts
    decreases |calls|
  {
    if calls == [] {
    } else {
      var c, s' := calls[0], Stats(s, calls[0]).0;
      var rest := Attempts(s', calls[1..]);
      StatsEffect(s, c);
      if Connects(s, c) {
        assert (AttemptOf(s, c) + rest)[1..] == rest;
        if c.dialAt < failure + HOUR {
          HourAfterFailure(s', calls[1..], c.stamp, failure);
        } else {
          NoneBefore(s', calls[1..], c.stamp, failure + HOUR);
        }
      } else {
        assert AttemptOf(s, c) + rest == rest;
        HourAfterFailure(s', calls[1..], c.stamp, failure);
      }
    }
  }

  /** In the hour that follows a failed connection attempt there are at most nine more attempts,
      whatever their outcome. */
  lemma NineMoreAttempts(s: State, calls: seq<Call>, from: int)
    requires s.attempts <= MAX_ATTEMPTS && calls != [] && Ordered(from, calls)
    requires Connects(s, calls[0]) && calls[0].dial.error.Some?
    ensures Before(Attempts(Stats(s, calls[0]).0, calls[1..]), calls[0].dialAt + HOUR) <= 9
  {
    StatsEffect(s, calls[0]);
    HourAfterFailure(Stats(s, calls[0]).0, calls[1..], calls[0].stamp, calls[0].dialAt);
  }

  lemma {:induction false} FailedIsBefore(attempts: seq<Attempt>, from: int, to: int, limit: int)
    requires to <= limit
    ensures FailedWithin(attempts, from, to) <= Before(attempts, limit)
  {
    if attempts == [] {
    } else {
      FailedIsBefore(attempts[1..], from, to, limit);
    }
  }

  /** Any half-open window of one hour holds at most ten failed attempts, in every run. */
  lemma {:induction false} TenFailuresAnHour(s: State, calls: seq<Call>, from: int, window: int)
    requires s.attempts <= MAX_ATTEMPTS && Ordered(from, calls)
    ensures FailedWithin(Attempts(s, calls), window, window + HOUR) <= MAX_ATTEMPTS
    decreases |calls|
  {
    if calls == [] {
    } else {
      var c, s' := calls[0], Stats(s, calls[0]).0;
      var rest := Attempts(s', calls[1..]);
      StatsEffect(s, c);
      TenFailuresAnHour(s', calls[1..], c.stamp, window);
      if Connects(s, c) {
        assert (AttemptOf(s, c) + rest)[1..] == rest;
        if c.dial.error.Some? && window <= c.dialAt < window + HOUR {
          NineMoreAttempts(s, calls, from);
          FailedIsBefore(rest, window, window + HOUR, c.dialAt + HOUR);
        }
      } else {
        assert AttemptOf(s, c) + rest == rest;
      }
    }
  }

  lemma {:induction false} FirstErrorMeaning(names: seq<string>, variables: string -> Option<Error>)
    ensures FirstError(names, variables).None? <==> forall i | 0 <= i < |names| :: variables(names[i]).None?
    ensures FirstError(names, variables).Some? ==>
              exists k :: FirstFailing(names, variables, k) && variables(names[k]) == FirstError(names, variables)
  {
    if names == [] {
    } else {
      FirstErrorMeaning(names[1..], variables);
      assert forall i | 0 < i < |names| :: names[i] == names[1..][i - 1];
      if variables(names[0]).Some? {
        assert FirstFailing(names, variables, 0);
      } else if FirstError(names[1..], variables).Some? {
        var k :| FirstFailing(names[1..], variables, k) && variables(names[1..][k]) == FirstError(names, variables);
        assert FirstFailing(names, variables, k + 1);
      }
    }
  }

  /** The k-th UPS is the first whose variables are not given. */
  predicate FirstFailing(names: seq<string>, variables: string -> Option<Error>, k: int) {
    0 <= k < |names| && variables(names[k]).Some? && forall i | 0 <= i < k :: variables(names[i]).None?
  }

  /** When a call connects, and what it leaves of the connection: the outcome of the attempt, if one is
      made, which only an error that breaks the connection undoes. The hour starts anew with every call
      that is stopped by a connection error, the stored one included. */
  lemma ConnectionMeaning(s: State, c: Call)
    ensures Connects(s, c) <==>
              && s.version == ""
              && (s.attempts < MAX_ATTEMPTS || s.connErrAt.None? || c.since - s.connErrAt.value >= HOUR)
    ensures var (s', e) := Stats(s, c);
            && (if Connects(s, c)
                then s'.connErr == c.dial.error
                     && s'.attempts == if s.attempts < MAX_ATTEMPTS then s.attempts + 1 else 1
                else s'.connErr == s.connErr && s'.attempts == s.attempts)
            && s'.version == (if e == Some(Broken) then ""
                              else if Connects(s, c) then c.dial.version else s.version)
            && s'.connErrAt == if s.version == "" && s'.connErr.Some? then Some(c.stamp) else s.connErrAt
  {
  }

  /** The error a call returns: the connection's, the list's, or that of the first UPS that fails. */
  lemma ErrorMeaning(s: State, c: Call)
    requires Stats(s, c).1.Some?
    ensures var (s', e) := Stats(s, c);
            if s.version == "" && s'.connErr.Some? then e == s'.connErr
            else if s'.upsList.None? then c.list == Err(e.value)
            else exists k :: FirstFailing(s'.upsList.value, c.variables, k)
                             && c.variables(s'.upsList.value[k]) == e
  {
    var s' := Stats(s, c).0;
    if s'.upsList.Some? {
      FirstErrorMeaning(s'.upsList.value, c.variables);
    }
  }

  /** A call succeeds exactly when it is not stopped at the connection, the list is known or fetched,
      and every UPS answers. A broken connection is always forgotten, and the list, once fetched, is
      never asked for again, not even over a new connection. */
  lemma StatsMeaning(s: State, c: Call)
    ensures var (s', e) := Stats(s, c);
            && (e.None? <==>
                  && !(s.version == "" && Connected(s, c).connErr.Some?)
                  && s'.upsList.Some?
                  && forall i | 0 <= i < |s'.upsList.value| :: c.variables(s'.upsList.value[i]).None?)
            && (e == Some(Broken) ==> s'.version == "")
            && (s.upsList.Some? ==> s'.upsList == s.upsList)
            && (s.upsList.None? && s'.upsList.Some? ==> c.list == Ok(s'.upsList.value))
  {
    var s' := Stats(s, c).0;
    if s'.upsList.Some? {
      FirstErrorMeaning(s'.upsList.value, c.variables);
    }
  }

  // ----- The hour's pause restarts with every call

  predicate Exhausted(s: State) {
    s.version == "" && s.attempts == MAX_ATTEMPTS && s.connErr.Some? && s.connErrAt.Some?
  }

  /** No call comes an hour or more after the one before it. */
  predicate Frequent(last: int, calls: seq<Call>)
    decreases |calls|
  {
    calls == [] || (calls[0].since - last < HOUR && Frequent(calls[0].stamp, calls[1..]))
  }

  /** Once the ten attempts have failed, a further one is made exactly when two successive calls are
      an hour apart: each call that returns the stored error restarts the hour. */
  lemma {:induction false} FrequentCallsStarve(s: State, calls: seq<Call>)
    requires Exhausted(s)
    ensures Attempts(s, calls) == [] <==> Frequent(s.connErrAt.value, calls)
    decreases |calls|
  {
    if calls == [] {
    } else if calls[0].since - s.connErrAt.value < HOUR {
      FrequentCallsStarve(Stats(s, calls[0]).0, calls[1..]);
    }
  }

  /** Every connection attempt of these calls fails without leaving a client connected. */
  predicate Unreachable(calls: seq<Call>) {
    forall i | 0 <= i < |calls| :: calls[i].dial.version == "" && calls[i].dial.error.Some?
  }

  /** Without a connection, each failing call uses one of the attempts left. */
  lemma {:induction false} FailuresUseAttempts(s: State, calls: seq<Call>)
    requires s.version == "" && s.attempts + |calls| <= MAX_ATTEMPTS && Unreachable(calls)
    ensures var s' := Final(s, calls);
            && s'.version == "" && s'.attempts == s.attempts + |calls|
            && |Attempts(s, calls)| == |calls|
            && (calls != [] ==> s'.connErr.Some? && s'.connErrAt == Some(calls[|calls| - 1].stamp))
    decreases |calls|
  {
    if calls == [] {
    } else {
      var s1, rest := Stats(s, calls[0]).0, calls[1..];
      assert Unreachable(rest) by {
        assert forall i | 0 <= i < |rest| :: rest[i] == calls[i + 1];
      }
      FailuresUseAttempts(s1, rest);
      assert rest == [] ==> Final(s1, rest) == s1;
      assert rest != [] ==> rest[|rest| - 1] == calls[|calls| - 1];
    }
  }

  lemma {:induction false} RunsCompose(s: State, calls: seq<Call>, more: seq<Call>)
    ensures Attempts(s, calls + more) == Attempts(s, calls) + Attempts(Final(s, calls), more)
    decreases |calls|
  {
    if calls == [] {
      assert calls + more == more;
    } else {
      assert (calls + more)[1..] == calls[1..] + more && (calls + more)[0] == calls[0];
      RunsCompose(Stats(s, calls[0]).0, calls[1..], more);
    }
  }

  /** The pause that never ends is reached from the start: ten calls that find the daemon unreachable
      make ten attempts, and a run that follows makes no other exactly when no two successive calls
      are an hour apart. */
  lemma StarvedFromStart(ten: seq<Call>, more: seq<Call>)
    requires |ten| == MAX_ATTEMPTS && Unreachable(ten)
    ensures Exhausted(Final(INITIAL, ten))
    ensures |Attempts(INITIAL, ten + more)| == MAX_ATTEMPTS <==> Frequent(ten[MAX_ATTEMPTS - 1].stamp, more)
  {
    FailuresUseAttempts(INITIAL, ten);
    RunsCompose(INITIAL, ten, more);
    FrequentCallsStarve(Final(INITIAL, ten), more);
  }

  // ----- The object

  class Client {
    var version: string
    var connErr: Option<Error>
    var connErrAt: Option<int>
    var attempts: nat
    var upsList: Option<seq<string>>

    function Abstract(): State
      reads this
    {
      State(version, connErr, connErrAt, attempts, upsList)
    }

    constructor ()
      ensures Abstract() == INITIAL
    {
      version, connErr, connErrAt, attempts, upsList := "", None, None, 0, None;
    }

    method DropIfBroken(e: Error)
      modifies this`version
      ensures Abstract() == Deferred(old(Abstract()), e)
    {
      if e.Broken? {
        version := "";
      }
    }

    method GetStats(c: Call) returns (err: Option<Error>)
      modifies this
      ensures (Abstract(), err) == Stats(old(Abstract()), c)
    {
      if version == "" {
        if attempts >= MAX_ATTEMPTS && (connErrAt.None? || c.since - connErrAt.value >= HOUR) {
          attempts := 0;
        }
        if attempts < MAX_ATTEMPTS {
          attempts := attempts + 1;
          version, connErr := c.dial.version, c.dial.error;
        }
        if connErr.Some? {
          connErrAt := Some(c.stamp);
          err := connErr;
          DropIfBroken(err.value);
          return;
        }
      }
      assert Abstract() == Connected(old(Abstract()), c);
      err := Query(c);
    }

    /** The rest of the call: the UPS list, once, and each UPS's variables. */
    method Query(c: Call) returns (err: Option<Error>)
      modifies this`version, this`upsList
      ensures (Abstract(), err) == Queried(old(Abstract()), c)
    {
      if upsList.None? {
        if c.list.Err? {
          DropIfBroken(c.list.error);
          return Some(c.list.error);
        }
        upsList := Some(c.list.value);
      }
      var names := upsList.value;
      if names == [] {
        return None;
      }
      for i := 0 to |names|
        invariant version == old(version) && upsList == Some(names)
        invariant FirstError(names, c.variables) == FirstError(names[i..], c.variables)
      {
        err := c.variables(names[i]);
        if err.Some? {
          DropIfBroken(err.value);
          return;
        }
      }
      return None;
    }

    method GetStatsWithRetry(c1: Call, c2: Call) returns (err: Option<Error>)
      modifies this
      ensures (Abstract(), err) == WithRetry(old(Abstract()), c1, c2)
      ensures Retried(old(Abstract()), c1, c2, err)
    {
      err := GetStats(c1);
      if err == Some(Broken) {
        err := GetStats(c2);
      }
    }
  }
}
