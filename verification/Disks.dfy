/** Disk temperatures: a scan that stops asking trailing slots that do not report. */
module Disks {
  import opened Basics

  /** One slot's answers: "--" is `Silent`, `Garbled` has an unparsable temperature. */
  datatype Slot = TempError | Silent | SmartError | Garbled(smart: string) | Reports(smart: string, temp: int)

  type Bay = int -> Slot

  datatype Metric = Metric(slot: int, smart: string, temp: int)

  predicate Answers(s: Slot) { s.Silent? || s.Reports? }

  /** No command or parse fails on the slots 1..n. */
  predicate ErrorFree(bay: Bay, n: int) { forall i | 1 <= i <= n :: Answers(bay(i)) }

  /** The metrics of the slots 1..n, in slot order. */
  function Reported(bay: Bay, n: nat): seq<Metric> {
    if n == 0 then []
    else
      Reported(bay, n - 1) + if bay(n).Reports? then [Metric(n, bay(n).smart, bay(n).temp)] else []
  }

  /** The slots that report, in slot order, each with what it says. */
  lemma {:induction false} ReportedMeaning(bay: Bay, n: nat, metrics: seq<Metric>)
    requires metrics == Reported(bay, n)
    ensures forall m :: m in metrics <==> 1 <= m.slot <= n && bay(m.slot) == Reports(m.smart, m.temp)
    ensures forall k, l | 0 <= k < l < |metrics| :: metrics[k].slot < metrics[l].slot
  {
    if n == 0 {
    } else {
      var before := Reported(bay, n - 1);
      ReportedMeaning(bay, n - 1, before);
      assert metrics == before + if bay(n).Reports? then [Metric(n, bay(n).smart, bay(n).temp)] else [];
      forall k | 0 <= k < |before| ensures before[k].slot < n {
        assert before[k] in before;
      }
    }
  }

  /** The highest slot in 1..n that reports, or 0. */
  function Highest(bay: Bay, n: nat): (h: nat)
    ensures h <= n && (h > 0 ==> bay(h).Reports?)
    ensures forall i | h < i <= n :: !bay(i).Reports?
  {
    if n == 0 then 0 else if bay(n).Reports? then n else Highest(bay, n - 1)
  }

  /** `Crashed` is the panic of making a list with a negative capacity. */
  datatype Outcome = Crashed | Failed(metrics: seq<Metric>) | Done(metrics: seq<Metric>)

  /** The first slot that fails ends the scan; only a garbled temperature returns what was found. */
  predicate FailsAt(bay: Bay, h: nat, metrics: seq<Metric>) {
    && h >= 1 && ErrorFree(bay, h - 1) && !Answers(bay(h))
    && metrics == if bay(h).Garbled? then Reported(bay, h - 1) else []
  }

  class Scanner {
    var syshdnum: int

    constructor ()
      ensures syshdnum == 0
    {
      syshdnum := 0;
    }

    /** The disk part of `readSysInfo`: None is a failed `hdnum` command, Some(None) an answer that is
        not a number. */
    method ReadSlots(hdnum: Option<Option<int>>)
      modifies this
      ensures hdnum.None? ==> syshdnum == -1
      ensures hdnum.Some? && hdnum.value.Some? ==> syshdnum == hdnum.value.value
      ensures hdnum == Some(None) ==> syshdnum == 0
    {
      match hdnum {
        case Some(Some(n)) => syshdnum := n;
        case Some(None) => syshdnum := 0;
        case None => syshdnum := -1;
      }
    }

    /** `getSysInfoHdMetrics`. A scan that does not complete leaves the bound as it was. */
    method GetMetrics(bay: Bay) returns (r: Outcome)
      modifies this
      ensures r.Crashed? <==> old(syshdnum) < 0
      ensures r.Done? <==> old(syshdnum) >= 0 && ErrorFree(bay, old(syshdnum))
      ensures r.Done? ==> r.metrics == Reported(bay, old(syshdnum)) && syshdnum == Highest(bay, old(syshdnum))
      ensures !r.Done? ==> syshdnum == old(syshdnum)
      ensures r.Failed? ==> exists h: nat | h <= syshdnum :: FailsAt(bay, h, r.metrics)
    {
      if syshdnum < 0 {
        return Crashed;
      }
      var metrics := [];
      var highestAvailable := 0;
      for hdnum := 1 to syshdnum + 1
        invariant syshdnum == old(syshdnum)
        invariant ErrorFree(bay, hdnum - 1)
        invariant metrics == Reported(bay, hdnum - 1) && highestAvailable == Highest(bay, hdnum - 1)
      {
        match bay(hdnum) {
          case TempError =>
            assert FailsAt(bay, hdnum, []);
            return Failed([]);
          case Silent =>
          case SmartError =>
            assert FailsAt(bay, hdnum, []);
            return Failed([]);
          case Garbled(_) =>
            assert FailsAt(bay, hdnum, metrics);
            return Failed(metrics);
          case Reports(smart, temp) =>
            metrics := metrics + [Metric(hdnum, smart, temp)];
            highestAvailable := hdnum;
        }
      }
      syshdnum := highestAvailable;
      return Done(metrics);
    }
  }

  lemma {:induction false} ReportedCount(bay: Bay, m: nat, n: nat)
    requires m <= n
    ensures Reported(bay, m) <= Reported(bay, n)
    ensures Reported(bay, m) == Reported(bay, n) <==> forall i | m < i <= n :: !bay(i).Reports?
  {
    if m == n {
    } else {
      ReportedCount(bay, m, n - 1);
    }
  }

  /** On an error-free bay a narrowed scan returns what the full scan returns if and only if no slot
      past its bound reports. */
  lemma NarrowIsFull(bay: Bay, bound: nat, full: nat)
    requires bound <= full && ErrorFree(bay, full)
    ensures Reported(bay, bound) == Reported(bay, full) <==> forall i | bound < i <= full :: bay(i).Silent?
  {
    ReportedCount(bay, bound, full);
    assert forall i | bound < i <= full :: Answers(bay(i));
  }

  /** The bound after a run of scans that starts from `full` slots. */
  function Bound(full: nat, bays: seq<Bay>): nat {
    if bays == [] then full
    else
      var before := Bound(full, bays[..|bays| - 1]);
      if ErrorFree(bays[|bays| - 1], before) then Highest(bays[|bays| - 1], before) else before
  }

  lemma {:induction false} BoundShrinks(full: nat, bays: seq<Bay>, k: nat)
    requires k <= |bays|
    ensures Bound(full, bays) <= Bound(full, bays[..k]) <= full
    decreases |bays|
  {
    if k < |bays| {
      BoundShrinks(full, bays[..|bays| - 1], k);
      assert bays[..|bays| - 1][..k] == bays[..k];
    } else {
      assert bays[..k] == bays;
      if bays != [] {
        BoundShrinks(full, bays[..|bays| - 1], 0);
      }
    }
  }

  /** No slot above the highest one that reported in some scan ever reports again. This speaks of the
      disks alone: it can be read off full scans, without knowing which slots were asked. */
  predicate NoneComesBack(full: nat, bays: seq<Bay>) {
    forall k, l, i | 0 <= k < l < |bays| && Highest(bays[k], full) < i <= full :: bays[l](i).Silent?
  }

  /** The k-th narrowed scan returns the metrics of a full scan. */
  predicate Agrees(full: nat, bays: seq<Bay>, k: nat)
    requires k < |bays|
  {
    Reported(bays[k], Bound(full, bays[..k])) == Reported(bays[k], full)
  }

  lemma {:induction false} HighestWithin(bay: Bay, bound: nat, full: nat)
    requires bound <= full && forall i | bound < i <= full :: !bay(i).Reports?
    ensures Highest(bay, bound) == Highest(bay, full)
  {
    if bound == full {
    } else {
      HighestWithin(bay, bound, full - 1);
    }
  }

  /** A narrowed scan that agrees with the full scan narrows the bound to where the full scan would. */
  lemma BoundAfterAgreeing(full: nat, bays: seq<Bay>, k: nat)
    requires k < |bays| && ErrorFree(bays[k], full) && Agrees(full, bays, k)
    ensures Bound(full, bays[..k + 1]) == Highest(bays[k], full)
  {
    var before := Bound(full, bays[..k]);
    BoundShrinks(full, bays[..k], 0);
    NarrowIsFull(bays[k], before, full);
    HighestWithin(bays[k], before, full);
    assert bays[..k + 1][..k] == bays[..k] && bays[..k + 1][k] == bays[k];
  }

  lemma {:induction false} ComesBackNever(full: nat, bays: seq<Bay>, k: nat)
    requires k < |bays| && NoneComesBack(full, bays)
    requires forall l | 0 <= l < |bays| :: ErrorFree(bays[l], full)
    ensures Agrees(full, bays, k)
  {
    if k == 0 {
      assert bays[..0] == [];
    } else {
      ComesBackNever(full, bays, k - 1);
      BoundAfterAgreeing(full, bays, k - 1);
      assert bays[..k - 1 + 1] == bays[..k];
      NarrowIsFull(bays[k], Bound(full, bays[..k]), full);
    }
  }

  lemma AgreeingForbidsComingBack(full: nat, bays: seq<Bay>, k: nat, l: nat, i: int)
    requires k < l < |bays| && Highest(bays[k], full) < i <= full
    requires ErrorFree(bays[k], full) && ErrorFree(bays[l], full)
    requires Agrees(full, bays, k) && Agrees(full, bays, l)
    ensures bays[l](i).Silent?
  {
    BoundAfterAgreeing(full, bays, k);
    BoundShrinks(full, bays[..l], k + 1);
    assert bays[..l][..k + 1] == bays[..k + 1];
    NarrowIsFull(bays[l], Bound(full, bays[..l]), full);
  }

  /** The adaptive scan refines the full scan over a whole run: every scan returns the full scan's
      metrics if and only if no disk comes back above the highest one seen in an earlier scan. */
  lemma AdaptiveIsFull(full: nat, bays: seq<Bay>)
    requires forall k | 0 <= k < |bays| :: ErrorFree(bays[k], full)
    ensures NoneComesBack(full, bays) <==> forall k: nat | k < |bays| :: Agrees(full, bays, k)
  {
    if NoneComesBack(full, bays) {
      forall k: nat | k < |bays| ensures Agrees(full, bays, k) {
        ComesBackNever(full, bays, k);
      }
    }
    if forall k: nat | k < |bays| :: Agrees(full, bays, k) {
      forall k: nat, l: nat, i | k < l < |bays| && Highest(bays[k], full) < i <= full
        ensures bays[l](i).Silent?
      {
        AgreeingForbidsComingBack(full, bays, k, l, i);
      }
    }
  }
}
