/** The soak report: what a run of samples amounts to, and what polling less can hide. */
module Soak {
  import Sets

  type DeviceId = string

  datatype FailureCounts = FailureCounts(timeout: int, busy: int, error: int)

  datatype Sample = Sample(atSec: int, devicesReady: int, adbProcessCount: int, forwardCount: int, rssBytes: int,
                           framesDroppedTotal: int, jobsSucceededTotal: int, jobsFailedTotal: int,
                           deviceCounts: FailureCounts, recoveringDeviceIds: seq<DeviceId>)

  datatype Report = Report(durationSec: int, devicesExpected: int, devicesReadyStart: int, devicesReadyEnd: int,
                           sessionsRebuilt: int, adbProcessesStart: int, adbProcessesEnd: int,
                           forwardsStart: int, forwardsEnd: int, rssBytesStart: int, rssBytesEnd: int,
                           framesDroppedDuringRun: int, jobsRun: int, failuresByClass: FailureCounts)

  /** The devices recovering at a sample. */
  function Recovering(s: Sample): set<DeviceId> {
    set d | d in s.recoveringDeviceIds
  }

  /** The devices that start to recover along a run, each time they do, after a sample where `before` were. */
  function Rebuilt(before: set<DeviceId>, samples: seq<Sample>): nat
    decreases |samples|
  {
    if samples == [] then 0 else
    |Recovering(samples[0]) - before| + Rebuilt(Recovering(samples[0]), samples[1..])
  }

  function LastRecovering(before: set<DeviceId>, samples: seq<Sample>): set<DeviceId> {
    if samples == [] then before else Recovering(samples[|samples| - 1])
  }

  function Delta(a: FailureCounts, b: FailureCounts): FailureCounts {
    FailureCounts(b.timeout - a.timeout, b.busy - a.busy, b.error - a.error)
  }

  function Plus(a: FailureCounts, b: FailureCounts): FailureCounts {
    FailureCounts(a.timeout + b.timeout, a.busy + b.busy, a.error + b.error)
  }

  function ReportOf(samples: seq<Sample>, devicesExpected: int): Report {
    if samples == [] then
      Report(0, devicesExpected, 0, 0, 0, 0, 0, 0, 0, 0, 0, 0, 0, FailureCounts(0, 0, 0))
    else
      var first, last := samples[0], samples[|samples| - 1];
      Report(last.atSec - first.atSec, devicesExpected, first.devicesReady, last.devicesReady, Rebuilt({}, samples),
             first.adbProcessCount, last.adbProcessCount, first.forwardCount, last.forwardCount,
             first.rssBytes, last.rssBytes, last.framesDroppedTotal - first.framesDroppedTotal,
             last.jobsSucceededTotal + last.jobsFailedTotal - (first.jobsSucceededTotal + first.jobsFailedTotal),
             Delta(first.deviceCounts, last.deviceCounts))
  }

  lemma OneLessPending(current: set<DeviceId>, previous: set<DeviceId>, pending: set<DeviceId>, d: DeviceId)
    requires pending <= current && d in pending
    ensures |(current - (pending - {d})) - previous| == |(current - pending) - previous| + if d in previous then 0 else 1
  {
    var done, more := (current - pending) - previous, (current - (pending - {d})) - previous;
    if d in previous {
      assert more == done;
    } else {
      assert more == done + {d};
    }
  }

  /** One count for each device that is recovering now and was not. */
  method CountRisen(current: set<DeviceId>, previous: set<DeviceId>) returns (risen: nat)
    ensures risen == |current - previous|
  {
    var pending := current;
    risen := 0;
    while pending != {}
      invariant pending <= current && risen == |(current - pending) - previous|
      decreases |pending|
    {
      var deviceId :| deviceId in pending;
      OneLessPending(current, previous, pending, deviceId);
      pending := pending - {deviceId};
      if deviceId !in previous { risen := risen + 1; }
    }
    assert current - {} == current;
  }

  method BuildSoakReport(samples: seq<Sample>, devicesExpected: int) returns (r: Report)
    ensures r == ReportOf(samples, devicesExpected)
  {
    if |samples| == 0 {
      return Report(0, devicesExpected, 0, 0, 0, 0, 0, 0, 0, 0, 0, 0, 0, FailureCounts(0, 0, 0));
    }
    var first, last := samples[0], samples[|samples| - 1];
    hide Rebuilt, LastRecovering;
    var sessionsRebuilt, previousRecovering := 0, {};
    NothingRebuilt({}, samples);
    for i := 0 to |samples|
      invariant sessionsRebuilt == Rebuilt({}, samples[..i])
      invariant previousRecovering == LastRecovering({}, samples[..i])
    {
      var current := set d | d in samples[i].recoveringDeviceIds;
      var risen := CountRisen(current, previousRecovering);
      RebuiltSnoc({}, samples, i);
      sessionsRebuilt := sessionsRebuilt + risen;
      previousRecovering := current;
    }
    assert samples[..|samples|] == samples;
    r := Report(last.atSec - first.atSec, devicesExpected, first.devicesReady, last.devicesReady, sessionsRebuilt,
                first.adbProcessCount, last.adbProcessCount, first.forwardCount, last.forwardCount,
                first.rssBytes, last.rssBytes, last.framesDroppedTotal - first.framesDroppedTotal,
                last.jobsSucceededTotal + last.jobsFailedTotal - (first.jobsSucceededTotal + first.jobsFailedTotal),
                Delta(first.deviceCounts, last.deviceCounts));
  }

  lemma NothingRebuilt(before: set<DeviceId>, samples: seq<Sample>)
    ensures Rebuilt(before, samples[..0]) == 0 && LastRecovering(before, samples[..0]) == before
  {
  }

  lemma RebuiltSnoc(before: set<DeviceId>, samples: seq<Sample>, i: nat)
    requires i < |samples|
    ensures Rebuilt(before, samples[..i + 1])
         == Rebuilt(before, samples[..i]) + |Recovering(samples[i]) - LastRecovering(before, samples[..i])|
    ensures LastRecovering(before, samples[..i + 1]) == Recovering(samples[i])
  {
    assert samples[..i + 1] == samples[..i] + [samples[i]];
    RebuiltAppend(before, samples[..i], [samples[i]]);
    assert [samples[i]][1..] == [];
  }

  lemma {:induction false} RebuiltAppend(before: set<DeviceId>, a: seq<Sample>, b: seq<Sample>)
    ensures Rebuilt(before, a + b) == Rebuilt(before, a) + Rebuilt(LastRecovering(before, a), b)
    decreases |a|
  {
    hide Recovering;
    if a == [] {
      assert a + b == b;
    } else {
      RebuiltAppend(Recovering(a[0]), a[1..], b);
      assert (a + b)[1..] == a[1..] + b;
      assert LastRecovering(Recovering(a[0]), a[1..]) == LastRecovering(before, a);
    }
  }

  // ---------------------------------------------------------- what it counts

  /** Where a device starts to recover: it does at this sample, and did not at the one before. */
  ghost predicate Rises(samples: seq<Sample>, i: nat, d: DeviceId) {
    i < |samples| && d in Recovering(samples[i]) && (i == 0 || d !in Recovering(samples[i - 1]))
  }

  /** The episodes of a run: the pairs of a device and a sample where it starts to recover. */
  ghost function Episodes(samples: seq<Sample>): set<(nat, DeviceId)> {
    set i: nat, d: DeviceId | i < |samples| && d in Recovering(samples[i]) && Rises(samples, i, d) :: (i, d)
  }

  /** The count of a report is the number of distinct episodes. */
  lemma {:induction false} RebuiltCountsEpisodes(samples: seq<Sample>)
    ensures Rebuilt({}, samples) == |Episodes(samples)|
    decreases |samples|
  {
    if samples == [] {
      assert Episodes(samples) == {};
    } else {
      var n := |samples| - 1;
      var init, last := samples[..n], samples[n];
      RebuiltCountsEpisodes(init);
      RebuiltSnoc({}, samples, n);
      assert samples[..n + 1] == samples;
      var risen := Recovering(last) - LastRecovering({}, init);
      PairsCount(n, risen);
      EpisodesGrow(samples);
    }
  }

  /** The last sample adds an episode for each device that starts to recover there. */
  lemma EpisodesGrow(samples: seq<Sample>)
    requires samples != []
    ensures var n := |samples| - 1;
      var here := set d | d in Recovering(samples[n]) - LastRecovering({}, samples[..n]) :: (n, d);
      Episodes(samples) == Episodes(samples[..n]) + here && Episodes(samples[..n]) !! here
  {
    hide Recovering;
    var n := |samples| - 1;
    var init := samples[..n];
    var here := set d | d in Recovering(samples[n]) - LastRecovering({}, init) :: (n, d);
    assert samples == init + [samples[n]];
    forall i: nat, d: DeviceId
      ensures (i, d) in Episodes(samples) <==> (i, d) in Episodes(init) || (i, d) in here
    {
      if i < n { assert samples[i] == init[i]; assert Rises(samples, i, d) == Rises(init, i, d); }
    }
  }

  lemma {:induction false} PairsCount(n: nat, ds: set<DeviceId>)
    ensures |set d | d in ds :: (n, d)| == |ds|
    decreases |ds|
  {
    if ds != {} {
      var d :| d in ds;
      PairsCount(n, ds - {d});
      assert (set e | e in ds :: (n, e)) == (set e | e in ds - {d} :: (n, e)) + {(n, d)};
    }
  }

  // ------------------------------------------------------- polling less, splitting

  /** `fewer` is `samples` with any of them deleted. */
  ghost predicate Deleted(fewer: seq<Sample>, samples: seq<Sample>) {
    if samples == [] then fewer == [] else
    Deleted(fewer, samples[1..]) || (fewer != [] && fewer[0] == samples[0] && Deleted(fewer[1..], samples[1..]))
  }

  /** Seeing fewer samples counts no more, up to what differs at the start. */
  lemma {:induction false} DeletingNeverAdds(p: set<DeviceId>, fewer: seq<Sample>, q: set<DeviceId>, samples: seq<Sample>)
    requires Deleted(fewer, samples)
    ensures Rebuilt(p, fewer) <= Rebuilt(q, samples) + |q - p|
    decreases |samples|
  {
    if samples != [] {
      var x := Recovering(samples[0]);
      TriangleOfDifferences(x, q, p);
      if Deleted(fewer, samples[1..]) {
        DeletingNeverAdds(p, fewer, x, samples[1..]);
      } else {
        DeletingNeverAdds(x, fewer[1..], x, samples[1..]);
        assert |x - x| == 0;
      }
    }
  }

  lemma TriangleOfDifferences(x: set<DeviceId>, q: set<DeviceId>, p: set<DeviceId>)
    ensures |x - p| <= |x - q| + |q - p|
  {
    Sets.SubsetSize(x - p, (x - q) + (q - p));
  }

  /** Deleting any samples never raises the count: polling only undercounts. */
  lemma PollingOnlyUndercounts(fewer: seq<Sample>, samples: seq<Sample>, devicesExpected: int)
    requires Deleted(fewer, samples)
    ensures ReportOf(fewer, devicesExpected).sessionsRebuilt <= ReportOf(samples, devicesExpected).sessionsRebuilt
  {
    var none: set<DeviceId> := {};
    DeletingNeverAdds(none, fewer, none, samples);
    assert none - none == {};
  }

  /**
   * Two runs that share a sample, the last of one and the first of the other: the devices
   * recovering there count twice, and every difference between end and start adds up.
   */
  lemma SplitAtSharedSample(a: seq<Sample>, m: Sample, b: seq<Sample>, n: int)
    ensures var l, r, w := ReportOf(a + [m], n), ReportOf([m] + b, n), ReportOf(a + [m] + b, n);
      && l.sessionsRebuilt + r.sessionsRebuilt == w.sessionsRebuilt + |Recovering(m)|
      && l.durationSec + r.durationSec == w.durationSec
      && l.framesDroppedDuringRun + r.framesDroppedDuringRun == w.framesDroppedDuringRun
      && l.jobsRun + r.jobsRun == w.jobsRun
      && Plus(l.failuresByClass, r.failuresByClass) == w.failuresByClass
  {
    hide Rebuilt, Recovering;
    RebuiltSplits(a, m, b);
    var whole := a + [m] + b;
    assert whole[0] == (a + [m])[0] && whole[|whole| - 1] == ([m] + b)[|[m] + b| - 1];
  }

  /** A run of one sample: it is the start and the end, and nothing happened in between. */
  lemma OneSample(s: Sample, n: int)
    ensures var r := ReportOf([s], n);
      && r.devicesExpected == n && r.devicesReadyStart == r.devicesReadyEnd == s.devicesReady
      && r.adbProcessesStart == r.adbProcessesEnd == s.adbProcessCount && r.forwardsStart == r.forwardsEnd == s.forwardCount
      && r.rssBytesStart == r.rssBytesEnd == s.rssBytes
      && r.durationSec == 0 && r.framesDroppedDuringRun == 0 && r.jobsRun == 0 && r.failuresByClass == FailureCounts(0, 0, 0)
  {
  }

  /** A run without samples is a report of nothing, whatever was expected. */
  lemma NoSamples(n: int)
    ensures var r := ReportOf([], n);
      && r.devicesExpected == n && r.devicesReadyStart == 0 == r.devicesReadyEnd && r.sessionsRebuilt == 0
      && r.adbProcessesStart == 0 == r.adbProcessesEnd && r.forwardsStart == 0 == r.forwardsEnd
      && r.rssBytesStart == 0 == r.rssBytesEnd && r.framesDroppedDuringRun == 0 && r.jobsRun == 0
      && r.durationSec == 0 && r.failuresByClass == FailureCounts(0, 0, 0)
  {
  }

  /** One more sample moves the end of the run to it, and every total by what it rose there; the start stays. */
  lemma OneMoreSample(samples: seq<Sample>, s: Sample, n: int)
    requires samples != []
    ensures var last, r, r' := samples[|samples| - 1], ReportOf(samples, n), ReportOf(samples + [s], n);
      && r'.devicesReadyStart == r.devicesReadyStart && r'.devicesReadyEnd == s.devicesReady
      && r'.adbProcessesStart == r.adbProcessesStart && r'.adbProcessesEnd == s.adbProcessCount
      && r'.forwardsStart == r.forwardsStart && r'.forwardsEnd == s.forwardCount
      && r'.rssBytesStart == r.rssBytesStart && r'.rssBytesEnd == s.rssBytes
      && r'.durationSec - r.durationSec == s.atSec - last.atSec
      && r'.framesDroppedDuringRun - r.framesDroppedDuringRun == s.framesDroppedTotal - last.framesDroppedTotal
      && r'.jobsRun - r.jobsRun == (s.jobsSucceededTotal - last.jobsSucceededTotal) + (s.jobsFailedTotal - last.jobsFailedTotal)
      && r'.failuresByClass.timeout - r.failuresByClass.timeout == s.deviceCounts.timeout - last.deviceCounts.timeout
      && r'.failuresByClass.busy - r.failuresByClass.busy == s.deviceCounts.busy - last.deviceCounts.busy
      && r'.failuresByClass.error - r.failuresByClass.error == s.deviceCounts.error - last.deviceCounts.error
  {
    hide Rebuilt;
    assert (samples + [s])[0] == samples[0];
  }

  lemma RebuiltSplits(a: seq<Sample>, m: Sample, b: seq<Sample>)
    ensures Rebuilt({}, a + [m]) + Rebuilt({}, [m] + b) == Rebuilt({}, a + [m] + b) + |Recovering(m)|
  {
    RebuiltAppend({}, a + [m], b);
    RebuiltAppend({}, [m], b);
    assert LastRecovering({}, a + [m]) == Recovering(m) == LastRecovering({}, [m]);
    assert [m][1..] == [];
    assert Rebuilt({}, [m]) == |Recovering(m) - {}| + Rebuilt(Recovering(m), []);
    assert Recovering(m) - {} == Recovering(m);
  }

  // ------------------------------------------------------------------ the verdict

  datatype Thresholds = Thresholds(maxAdbProcessGrowth: int, maxForwardGrowth: int, maxSessionsRebuilt: int,
                                   requireDevicesReadyAtEnd: int)

  datatype Breach = AdbGrowth(growth: int) | ForwardGrowth(growth: int) | TooManyRebuilds(count: int) | TooFewReady(ready: int)

  method EvaluateSoakReport(report: Report, thresholds: Thresholds) returns (ok: bool, breaches: seq<Breach>)
    ensures ok <==> Holds(report, thresholds)
    ensures ok <==> breaches == []
    ensures forall b | b in breaches :: Breached(report, thresholds, b)
    ensures forall b :: Breached(report, thresholds, b) ==> b in breaches
  {
    breaches := [];
    var adbGrowth := report.adbProcessesEnd - report.adbProcessesStart;
    if adbGrowth > thresholds.maxAdbProcessGrowth { breaches := breaches + [AdbGrowth(adbGrowth)]; }
    var forwardGrowth := report.forwardsEnd - report.forwardsStart;
    if forwardGrowth > thresholds.maxForwardGrowth { breaches := breaches + [ForwardGrowth(forwardGrowth)]; }
    if report.sessionsRebuilt > thresholds.maxSessionsRebuilt {
      breaches := breaches + [TooManyRebuilds(report.sessionsRebuilt)];
    }
    if report.devicesReadyEnd < thresholds.requireDevicesReadyAtEnd {
      breaches := breaches + [TooFewReady(report.devicesReadyEnd)];
    }
    ok := |breaches| == 0;
  }

  /** Every threshold holds. */
  predicate Holds(r: Report, t: Thresholds) {
    && r.adbProcessesEnd - r.adbProcessesStart <= t.maxAdbProcessGrowth
    && r.forwardsEnd - r.forwardsStart <= t.maxForwardGrowth
    && r.sessionsRebuilt <= t.maxSessionsRebuilt
    && r.devicesReadyEnd >= t.requireDevicesReadyAtEnd
  }

  predicate Breached(r: Report, t: Thresholds, b: Breach) {
    match b
    case AdbGrowth(growth) => growth == r.adbProcessesEnd - r.adbProcessesStart && growth > t.maxAdbProcessGrowth
    case ForwardGrowth(growth) => growth == r.forwardsEnd - r.forwardsStart && growth > t.maxForwardGrowth
    case TooManyRebuilds(count) => count == r.sessionsRebuilt && count > t.maxSessionsRebuilt
    case TooFewReady(ready) => ready == r.devicesReadyEnd && ready < t.requireDevicesReadyAtEnd
  }

  /** The thresholds hold exactly when none is breached; a run exactly at them passes. */
  lemma HoldsIffNothingBreached(r: Report, t: Thresholds)
    ensures Holds(r, t) <==> forall b :: !Breached(r, t, b)
    ensures t == Thresholds(r.adbProcessesEnd - r.adbProcessesStart, r.forwardsEnd - r.forwardsStart, r.sessionsRebuilt, r.devicesReadyEnd)
      ==> Holds(r, t)
  {
    if !Holds(r, t) {
      var adb, forwards := AdbGrowth(r.adbProcessesEnd - r.adbProcessesStart), ForwardGrowth(r.forwardsEnd - r.forwardsStart);
      var rebuilt, ready := TooManyRebuilds(r.sessionsRebuilt), TooFewReady(r.devicesReadyEnd);
      assert Breached(r, t, adb) || Breached(r, t, forwards) || Breached(r, t, rebuilt) || Breached(r, t, ready);
    }
  }

  /** A run that passes still passes when samples between its first and its last are left out. */
  lemma PollingLessNeverFails(fewer: seq<Sample>, samples: seq<Sample>, devicesExpected: int, t: Thresholds)
    requires Deleted(fewer, samples) && fewer != [] && samples != []
    requires fewer[0] == samples[0] && fewer[|fewer| - 1] == samples[|samples| - 1]
    requires Holds(ReportOf(samples, devicesExpected), t)
    ensures Holds(ReportOf(fewer, devicesExpected), t)
  {
    PollingOnlyUndercounts(fewer, samples, devicesExpected);
  }
}
