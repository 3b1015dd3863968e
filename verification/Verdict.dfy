// How the main thread of test.py turns the reports it collects into counters, the list of
// failed jobs and the exit code.  A job's return code and the result in its XML file are inputs.
module Verdict {
  import opened WorkerPool

  datatype Kind = TestSuite | Example | PyExample

  /** The job's own XML file: not there, not parsable, or with this result in it. */
  datatype Xml = Missing | Unreadable | Result(text: string)

  datatype Job = Job(kind: Kind, skip: bool, returncode: int, xml: Xml)

  datatype Status = INTERRUPTED | SKIP | PASS | FAIL | VALGR | CRASH

  function Skips(jobs: seq<Job>): (s: seq<bool>)
    ensures |s| == |jobs|
  {
    seq(|jobs|, i requires 0 <= i < |jobs| => jobs[i].skip)
  }

  predicate KnownIds(jobs: seq<Job>, rs: seq<Report>) {
    forall i | 0 <= i < |rs| :: rs[i].id < |jobs|
  }

  function StatusOf(jobs: seq<Job>, r: Report): Status
    requires r.id < |jobs|
  {
    var job := jobs[r.id];
    if r.bounced then INTERRUPTED
    else if job.skip then SKIP
    else if job.returncode == 0 then PASS
    else if job.returncode == 1 then FAIL
    else if job.returncode == 2 then VALGR
    else CRASH
  }

  /** How many of the reports get this status. */
  function Count(jobs: seq<Job>, rs: seq<Report>, status: Status): nat
    requires KnownIds(jobs, rs)
  {
    if rs == [] then 0
    else Count(jobs, rs[..|rs| - 1], status) + if StatusOf(jobs, rs[|rs| - 1]) == status then 1 else 0
  }

  /** How often the collect loop leaves a job in failed_jobs: once for a bad return code, and once
      more for a test suite whose XML file does not say PASS or SKIP (or is not looked at). */
  function FailedEntries(job: Job): nat {
    (if job.returncode == 0 then 0 else 1)
    + if job.kind == TestSuite && !(0 <= job.returncode <= 2 && job.xml in {Result("PASS"), Result("SKIP")}) then 1 else 0
  }

  function Entries(jobs: seq<Job>, r: Report): nat
    requires r.id < |jobs|
  {
    if r.bounced || jobs[r.id].skip then 0 else FailedEntries(jobs[r.id])
  }

  /** failed_jobs after the loop, as job numbers. */
  function FailedJobs(jobs: seq<Job>, rs: seq<Report>): seq<nat>
    requires KnownIds(jobs, rs)
  {
    if rs == [] then []
    else
      var r := rs[|rs| - 1];
      FailedJobs(jobs, rs[..|rs| - 1]) + seq(Entries(jobs, r), i => r.id)
  }

  /** The reports, by position, of jobs that were run and returned this code. */
  ghost function RanWith(jobs: seq<Job>, rs: seq<Report>, code: int): set<nat>
    requires KnownIds(jobs, rs)
  {
    set i: nat | i < |rs| && !rs[i].bounced && !jobs[rs[i].id].skip && jobs[rs[i].id].returncode == code
  }

  ghost function SkippedIn(jobs: seq<Job>, rs: seq<Report>): set<nat>
    requires KnownIds(jobs, rs)
  {
    set i: nat | i < |rs| && !rs[i].bounced && jobs[rs[i].id].skip
  }

  ghost function CrashedIn(jobs: seq<Job>, rs: seq<Report>): set<nat>
    requires KnownIds(jobs, rs)
  {
    set i: nat | i < |rs| && !rs[i].bounced && !jobs[rs[i].id].skip && jobs[rs[i].id].returncode !in {0, 1, 2}
  }

  ghost function ReportsWith(jobs: seq<Job>, rs: seq<Report>, status: Status): set<nat>
    requires KnownIds(jobs, rs)
  {
    set i: nat | i < |rs| && StatusOf(jobs, rs[i]) == status
  }

  lemma ReportsWithNext(jobs: seq<Job>, rs: seq<Report>, r: Report, status: Status)
    requires KnownIds(jobs, rs) && r.id < |jobs|
    ensures KnownIds(jobs, rs + [r])
    ensures ReportsWith(jobs, rs + [r], status)
         == ReportsWith(jobs, rs, status) + if StatusOf(jobs, r) == status then {|rs|} else {}
  {
    assert forall i: nat | i < |rs| :: (rs + [r])[i] == rs[i];
  }

  lemma {:induction false} CountIsReports(jobs: seq<Job>, rs: seq<Report>, status: Status)
    requires KnownIds(jobs, rs)
    ensures Count(jobs, rs, status) == |ReportsWith(jobs, rs, status)|
  {
    if rs == [] {
      assert ReportsWith(jobs, rs, status) == {};
    } else {
      var init, r := rs[..|rs| - 1], rs[|rs| - 1];
      CountIsReports(jobs, init, status);
      ReportsWithNext(jobs, init, r, status);
      assert rs == init + [r];
    }
  }

  /** The counters are those of the jobs that were run, by their return codes, and of the skipped ones; a
      bounced report counts under none of them. */
  lemma CountsByCode(jobs: seq<Job>, rs: seq<Report>)
    requires KnownIds(jobs, rs)
    ensures Count(jobs, rs, PASS) == |RanWith(jobs, rs, 0)|
    ensures Count(jobs, rs, FAIL) == |RanWith(jobs, rs, 1)|
    ensures Count(jobs, rs, VALGR) == |RanWith(jobs, rs, 2)|
    ensures Count(jobs, rs, CRASH) == |CrashedIn(jobs, rs)|
    ensures Count(jobs, rs, SKIP) == |SkippedIn(jobs, rs)|
  {
    CountIsReports(jobs, rs, PASS);
    CountIsReports(jobs, rs, FAIL);
    CountIsReports(jobs, rs, VALGR);
    CountIsReports(jobs, rs, CRASH);
    CountIsReports(jobs, rs, SKIP);
    assert ReportsWith(jobs, rs, PASS) == RanWith(jobs, rs, 0);
    assert ReportsWith(jobs, rs, FAIL) == RanWith(jobs, rs, 1);
    assert ReportsWith(jobs, rs, VALGR) == RanWith(jobs, rs, 2);
    assert ReportsWith(jobs, rs, CRASH) == CrashedIn(jobs, rs);
    assert ReportsWith(jobs, rs, SKIP) == SkippedIn(jobs, rs);
  }

  /** Collecting this job would end main: it opens a file that is not there, outside of any try. */
  predicate LosesFile(job: Job) {
    job.kind == TestSuite && 0 <= job.returncode <= 2 && job.xml == Missing
  }

  predicate EndsMain(jobs: seq<Job>, r: Report)
    requires r.id < |jobs|
  {
    !r.bounced && !jobs[r.id].skip && LosesFile(jobs[r.id])
  }

  predicate NoFileMissing(jobs: seq<Job>, rs: seq<Report>)
    requires KnownIds(jobs, rs)
  {
    forall i | 0 <= i < |rs| :: !EndsMain(jobs, rs[i])
  }

  /** The collect loop; it finishes unless it comes to a file that is missing.  output is the order in which
      output_queue.get() delivers. */
  method Collect(jobs: seq<Job>, output: seq<Report>)
    returns (finished: bool, passed: nat, skipped: nat, failed: nat, crashed: nat, valgrind: nat, failedJobs: seq<nat>)
    requires |output| == |jobs| && KnownIds(jobs, output)
    ensures finished <==> NoFileMissing(jobs, output)
    ensures finished ==> passed == Count(jobs, output, PASS) && skipped == Count(jobs, output, SKIP)
    ensures finished ==> failed == Count(jobs, output, FAIL) && crashed == Count(jobs, output, CRASH)
    ensures finished ==> valgrind == Count(jobs, output, VALGR)
    ensures finished ==> failedJobs == FailedJobs(jobs, output)
  {
    passed, skipped, failed, crashed, valgrind, failedJobs := 0, 0, 0, 0, 0, [];
    for i := 0 to |jobs|
      invariant forall k | 0 <= k < i :: !EndsMain(jobs, output[k])
      invariant passed == Count(jobs, output[..i], PASS) && skipped == Count(jobs, output[..i], SKIP)
      invariant failed == Count(jobs, output[..i], FAIL) && crashed == Count(jobs, output[..i], CRASH)
      invariant valgrind == Count(jobs, output[..i], VALGR)
      invariant failedJobs == FailedJobs(jobs, output[..i])
    {
      var r := output[i];
      var job := jobs[r.id];
      assert output[..i + 1][..i] == output[..i];
      ghost var before := failedJobs;
      if r.bounced {
        continue;
      }
      if job.skip {
        skipped := skipped + 1;
      } else {
        failedJobs := failedJobs + [r.id];
        if job.returncode == 0 {
          passed := passed + 1;
          failedJobs := failedJobs[..|failedJobs| - 1];
        } else if job.returncode == 1 {
          failed := failed + 1;
        } else if job.returncode == 2 {
          valgrind := valgrind + 1;
        } else {
          crashed := crashed + 1;
        }
        if job.kind == TestSuite {
          failedJobs := failedJobs + [r.id];
          if job.returncode == 0 || job.returncode == 1 || job.returncode == 2 {
            if job.xml.Missing? {
              finished := false;
              assert EndsMain(jobs, output[i]);
              return;
            }
            if job.xml.Result? && job.xml.text in ["PASS", "SKIP"] {
              failedJobs := failedJobs[..|failedJobs| - 1];
            }
          }
        }
      }
      assert failedJobs == before + seq(Entries(jobs, r), k => r.id);
    }
    finished := true;
    assert output[..|jobs|] == output;
  }

  /** The collect loop and the verdict: the counters and the exit code in terms of the collected jobs. */
  method CollectResults(jobs: seq<Job>, output: seq<Report>)
    returns (finished: bool, passed: nat, skipped: nat, failed: nat, crashed: nat, valgrind: nat,
             failedJobs: seq<nat>, exitCode: int)
    requires |output| == |jobs| && KnownIds(jobs, output)
    ensures finished <==> NoFileMissing(jobs, output)
    ensures finished ==> passed == |RanWith(jobs, output, 0)| && failed == |RanWith(jobs, output, 1)|
    ensures finished ==> valgrind == |RanWith(jobs, output, 2)| && crashed == |CrashedIn(jobs, output)|
    ensures finished ==> skipped == |SkippedIn(jobs, output)|
    ensures finished ==> (exitCode == 0 <==> AllGoodReports(jobs, output))
    ensures finished ==> passed == Count(jobs, output, PASS) && skipped == Count(jobs, output, SKIP)
    ensures finished ==> failed == Count(jobs, output, FAIL) && crashed == Count(jobs, output, CRASH)
    ensures finished ==> valgrind == Count(jobs, output, VALGR)
    ensures finished ==> failedJobs == FailedJobs(jobs, output)
    ensures finished ==> (exitCode == 0 <==> forall i | 0 <= i < |output| :: StatusOf(jobs, output[i]) in {PASS, SKIP})
    ensures exitCode in {0, 1}
  {
    finished, passed, skipped, failed, crashed, valgrind, failedJobs := Collect(jobs, output);
    exitCode := if finished && passed + skipped == |jobs| then 0 else 1;
    AllGood(jobs, output);
    CountsByCode(jobs, output);
  }

  /** No report is bounced, and every job that was not skipped returned 0. */
  predicate AllGoodReports(jobs: seq<Job>, rs: seq<Report>)
    requires KnownIds(jobs, rs)
  {
    forall i | 0 <= i < |rs| :: !rs[i].bounced && (jobs[rs[i].id].skip || jobs[rs[i].id].returncode == 0)
  }

  lemma {:induction false} AllGood(jobs: seq<Job>, rs: seq<Report>)
    requires KnownIds(jobs, rs)
    ensures Count(jobs, rs, PASS) + Count(jobs, rs, SKIP) <= |rs|
    ensures Count(jobs, rs, PASS) + Count(jobs, rs, SKIP) == |rs|
       <==> forall i | 0 <= i < |rs| :: StatusOf(jobs, rs[i]) in {PASS, SKIP}
  {
    if rs != [] { AllGood(jobs, rs[..|rs| - 1]); }
  }

  /** Every collected job is counted exactly once. */
  lemma {:induction false} CountsAddUp(jobs: seq<Job>, rs: seq<Report>)
    requires KnownIds(jobs, rs)
    ensures Count(jobs, rs, PASS) + Count(jobs, rs, SKIP) + Count(jobs, rs, FAIL) + Count(jobs, rs, CRASH)
          + Count(jobs, rs, VALGR) + Count(jobs, rs, INTERRUPTED) == |rs|
  {
    if rs != [] { CountsAddUp(jobs, rs[..|rs| - 1]); }
  }

  // ---------------------------------------------------------------- over all schedules

  /** s is the last state of a run with these jobs, whatever the schedule. */
  ghost predicate Finished(jobs: seq<Job>, processors: nat, s: State) {
    Reachable(Config(processors, Skips(jobs)), s) && s.main.Done?
  }

  /** The jobs that get this status when nothing is interrupted. */
  ghost function JobsWith(jobs: seq<Job>, status: Status): set<nat> {
    set j: nat | j < |jobs| && StatusOf(jobs, Report(j, false)) == status
  }

  lemma {:induction false} CountIsSize(jobs: seq<Job>, rs: seq<Report>, ids: set<nat>, status: Status)
    requires KnownIds(jobs, rs)
    requires forall i | 0 <= i < |rs| :: !rs[i].bounced
    requires forall j: nat :: Reports(rs, j) == if j in ids then 1 else 0
    ensures Count(jobs, rs, status) == |ids * JobsWith(jobs, status)|
  {
    if rs == [] {
      assert forall j | j in ids :: Reports([], j) == 1;
      assert forall j | j in ids :: Reports([], j) == 0;
    } else {
      var n := |rs| - 1;
      var r := rs[n];
      assert rs == rs[..n] + [r];
      ReportsAppend(rs[..n], r, r.id);
      assert Reports(rs, r.id) == if r.id in ids then 1 else 0;
      forall j: nat ensures Reports(rs[..n], j) == if j in ids - {r.id} then 1 else 0 {
        ReportsAppend(rs[..n], r, j);
        assert Reports(rs, j) == if j in ids then 1 else 0;
      }
      CountIsSize(jobs, rs[..n], ids - {r.id}, status);
      var all, rest := ids * JobsWith(jobs, status), (ids - {r.id}) * JobsWith(jobs, status);
      if StatusOf(jobs, r) == status {
        assert r == Report(r.id, false);
        assert all == rest + {r.id};
      } else {
        assert all == rest;
      }
    }
  }

  lemma IdsKnown(jobs: seq<Job>, rs: seq<Report>)
    requires forall j: nat :: Reports(rs, j) == if j < |jobs| then 1 else 0
    ensures KnownIds(jobs, rs)
  {
    forall i | 0 <= i < |rs| ensures rs[i].id < |jobs| {
      Occurs(rs, i);
      assert Reports(rs, rs[i].id) == if rs[i].id < |jobs| then 1 else 0;
    }
  }

  lemma {:induction false} Occurs(rs: seq<Report>, i: nat)
    requires i < |rs|
    ensures Reports(rs, rs[i].id) > 0
  {
    if i > 0 { Occurs(rs[1..], i - 1); }
  }

  /** Whatever the schedule and the number of workers, an uninterrupted complete run
      counts under each status exactly the jobs that deserve it. */
  lemma CountersIgnoreSchedule(jobs: seq<Job>, processors: nat, s: State, status: Status)
    requires Finished(jobs, processors, s) && !s.threadExit
    ensures KnownIds(jobs, s.collected) && |s.collected| == |jobs|
    ensures Count(jobs, s.collected, status) == |JobsWith(jobs, status)|
  {
    var c := Config(processors, Skips(jobs));
    DoneMeansComplete(c, s);
    IdsKnown(jobs, s.collected);
    var ids := Ids(|jobs|);
    forall j: nat ensures Reports(s.collected, j) == if j in ids then 1 else 0 {
      assert Reports(s.collected, j) == if j < c.Jobs() then 1 else 0;
    }
    CountIsSize(jobs, s.collected, ids, status);
    assert ids * JobsWith(jobs, status) == JobsWith(jobs, status);
  }

  /** In a complete run, interrupted or not, every job has one report, the six statuses add up
      to the number of jobs, and the run is a success when only two of them occur. */
  lemma {:induction false} CompleteRunVerdict(jobs: seq<Job>, processors: nat, s: State)
    requires Finished(jobs, processors, s)
    ensures KnownIds(jobs, s.collected) && |s.collected| == |jobs|
    ensures var rs := s.collected;
            var good := Count(jobs, rs, PASS) + Count(jobs, rs, SKIP);
            var bad := Count(jobs, rs, FAIL) + Count(jobs, rs, CRASH) + Count(jobs, rs, VALGR);
            && good + bad + Count(jobs, rs, INTERRUPTED) == |jobs|
            && (good == |jobs| <==> bad == 0 && Count(jobs, rs, INTERRUPTED) == 0)
    ensures forall j: nat | j < |jobs| :: Reports(s.collected, j) == 1
  {
    DoneMeansComplete(Config(processors, Skips(jobs)), s);
    forall j: nat ensures Reports(s.collected, j) == if j < |jobs| then 1 else 0 {
      assert Reports(s.collected, j) == if j < Config(processors, Skips(jobs)).Jobs() then 1 else 0;
    }
    IdsKnown(jobs, s.collected);
    CountsAddUp(jobs, s.collected);
  }

  ghost function JobsRan(jobs: seq<Job>, code: int): set<nat> {
    set j: nat | j < |jobs| && !jobs[j].skip && jobs[j].returncode == code
  }

  ghost function JobsCrashed(jobs: seq<Job>): set<nat> {
    set j: nat | j < |jobs| && !jobs[j].skip && jobs[j].returncode !in {0, 1, 2}
  }

  ghost function JobsSkipped(jobs: seq<Job>): set<nat> {
    set j: nat | j < |jobs| && jobs[j].skip
  }

  /** The counters of a complete uninterrupted run, from the jobs alone. */
  lemma {:induction false} CountersByCode(jobs: seq<Job>, processors: nat, s: State)
    requires Finished(jobs, processors, s) && !s.threadExit
    ensures KnownIds(jobs, s.collected)
    ensures Count(jobs, s.collected, PASS) == |JobsRan(jobs, 0)|
    ensures Count(jobs, s.collected, FAIL) == |JobsRan(jobs, 1)|
    ensures Count(jobs, s.collected, VALGR) == |JobsRan(jobs, 2)|
    ensures Count(jobs, s.collected, CRASH) == |JobsCrashed(jobs)|
    ensures Count(jobs, s.collected, SKIP) == |JobsSkipped(jobs)|
  {
    CountersIgnoreSchedule(jobs, processors, s, PASS);
    CountersIgnoreSchedule(jobs, processors, s, FAIL);
    CountersIgnoreSchedule(jobs, processors, s, VALGR);
    CountersIgnoreSchedule(jobs, processors, s, CRASH);
    CountersIgnoreSchedule(jobs, processors, s, SKIP);
    assert JobsWith(jobs, PASS) == JobsRan(jobs, 0);
    assert JobsWith(jobs, FAIL) == JobsRan(jobs, 1);
    assert JobsWith(jobs, VALGR) == JobsRan(jobs, 2);
    assert JobsWith(jobs, CRASH) == JobsCrashed(jobs);
    assert JobsWith(jobs, SKIP) == JobsSkipped(jobs);
  }

  /** All reports are good exactly when all jobs are. */
  lemma {:induction false} GoodReports(jobs: seq<Job>, processors: nat, s: State)
    requires Finished(jobs, processors, s) && !s.threadExit
    ensures KnownIds(jobs, s.collected)
    ensures AllGoodReports(jobs, s.collected)
       <==> forall j | 0 <= j < |jobs| :: jobs[j].skip || jobs[j].returncode == 0
  {
    CompleteRunVerdict(jobs, processors, s);
    DoneMeansComplete(Config(processors, Skips(jobs)), s);
    var rs := s.collected;
    if AllGoodReports(jobs, rs) {
      forall j | 0 <= j < |jobs| ensures jobs[j].skip || jobs[j].returncode == 0 {
        assert Reports(rs, j) == 1;
        var i := WhereReported(rs, j);
      }
    }
  }

  /** The collect loop on the reports of a complete run: without SIGINT the result depends on the jobs alone. */
  method CollectRun(jobs: seq<Job>, output: seq<Report>, ghost processors: nat, ghost s: State)
    returns (finished: bool, passed: nat, skipped: nat, failed: nat, crashed: nat, valgrind: nat,
             failedJobs: seq<nat>, exitCode: int)
    requires Finished(jobs, processors, s) && output == s.collected
    ensures !s.threadExit ==> (finished <==> forall j | 0 <= j < |jobs| :: jobs[j].skip || !LosesFile(jobs[j]))
    ensures !s.threadExit && finished ==>
              && passed == |JobsRan(jobs, 0)| && failed == |JobsRan(jobs, 1)|
              && valgrind == |JobsRan(jobs, 2)| && crashed == |JobsCrashed(jobs)|
              && skipped == |JobsSkipped(jobs)|
              && (exitCode == 0 <==> forall j | 0 <= j < |jobs| :: jobs[j].skip || jobs[j].returncode == 0)
    ensures finished && exitCode == 0 ==> forall i | 0 <= i < |output| :: !output[i].bounced
  {
    CompleteRunVerdict(jobs, processors, s);
    finished, passed, skipped, failed, crashed, valgrind, failedJobs, exitCode := CollectResults(jobs, output);
    if !s.threadExit {
      CollectFinishes(jobs, processors, s);
      CountersByCode(jobs, processors, s);
      GoodReports(jobs, processors, s);
    }
  }

  /** In a complete uninterrupted run the collect loop finishes exactly when no suite that ran and returned
      0, 1 or 2 has lost its file. */
  lemma CollectFinishes(jobs: seq<Job>, processors: nat, s: State)
    requires Finished(jobs, processors, s) && !s.threadExit
    ensures KnownIds(jobs, s.collected)
    ensures NoFileMissing(jobs, s.collected) <==> forall j | 0 <= j < |jobs| :: jobs[j].skip || !LosesFile(jobs[j])
  {
    CompleteRunVerdict(jobs, processors, s);
    DoneMeansComplete(Config(processors, Skips(jobs)), s);
    forall j | 0 <= j < |jobs| && !jobs[j].skip && LosesFile(jobs[j]) ensures !NoFileMissing(jobs, s.collected) {
      assert Reports(s.collected, j) == 1;
      var i := WhereReported(s.collected, j);
      assert EndsMain(jobs, s.collected[i]);
    }
  }

  lemma {:induction false} WhereReported(rs: seq<Report>, j: nat) returns (i: nat)
    requires Reports(rs, j) > 0
    ensures i < |rs| && rs[i].id == j
  {
    if rs[0].id == j {
      i := 0;
    } else {
      i := WhereReported(rs[1..], j);
      i := i + 1;
    }
  }

  /** failed_jobs is in the order of collection. */
  lemma {:induction false} FailedJobsInOrder(jobs: seq<Job>, a: seq<Report>, b: seq<Report>)
    requires KnownIds(jobs, a) && KnownIds(jobs, b)
    ensures KnownIds(jobs, a + b)
    ensures FailedJobs(jobs, a + b) == FailedJobs(jobs, a) + FailedJobs(jobs, b)
  {
    forall i | 0 <= i < |a + b| ensures (a + b)[i].id < |jobs| {
      assert (a + b)[i] == if i < |a| then a[i] else b[i - |a|];
    }
    if b == [] {
      assert a + b == a;
    } else {
      var n := |b| - 1;
      FailedJobsInOrder(jobs, a, b[..n]);
      assert (a + b)[..|a + b| - 1] == a + b[..n];
    }
  }

  lemma {:induction false} FailedJobsOf(jobs: seq<Job>, rs: seq<Report>, i: nat)
    requires KnownIds(jobs, rs) && i < |rs| && Reports(rs, rs[i].id) == 1
    ensures multiset(FailedJobs(jobs, rs))[rs[i].id] == Entries(jobs, rs[i])
  {
    var n := |rs| - 1;
    var j := rs[i].id;
    assert rs == rs[..n] + [rs[n]];
    ReportsAppend(rs[..n], rs[n], j);
    Repeated(Entries(jobs, rs[n]), rs[n].id, j);
    if i == n {
      NotFailed(jobs, rs[..n], j);
    } else {
      Occurs(rs[..n], i);
      FailedJobsOf(jobs, rs[..n], i);
    }
  }

  lemma {:induction false} NotFailed(jobs: seq<Job>, rs: seq<Report>, j: nat)
    requires KnownIds(jobs, rs) && Reports(rs, j) == 0
    ensures multiset(FailedJobs(jobs, rs))[j] == 0
  {
    if rs != [] {
      var n := |rs| - 1;
      assert rs == rs[..n] + [rs[n]];
      ReportsAppend(rs[..n], rs[n], j);
      Repeated(Entries(jobs, rs[n]), rs[n].id, j);
      NotFailed(jobs, rs[..n], j);
    }
  }

  lemma {:induction false} Repeated(n: nat, x: nat, j: nat)
    ensures multiset(seq(n, i => x))[j] == if x == j then n else 0
  {
    if n > 0 {
      assert seq(n, i => x) == seq(n - 1, i => x) + [x];
      Repeated(n - 1, x, j);
    }
  }

  /** failed_jobs after a complete run: a job that ran and returned non-zero is in it once or twice,
      a job that returned zero only if it is a suite without a PASS or SKIP result, and then once;
      a skipped or interrupted job is not in it. */
  lemma FailedJobsMeaning(jobs: seq<Job>, processors: nat, s: State, i: nat)
    requires Finished(jobs, processors, s) && i < |s.collected|
    ensures KnownIds(jobs, s.collected)
    ensures var r := s.collected[i];
            var job := jobs[r.id];
            var times := multiset(FailedJobs(jobs, s.collected))[r.id];
            && (r.bounced || job.skip ==> times == 0)
            && (!r.bounced && !job.skip && job.returncode != 0 ==> 1 <= times <= 2)
            && (!r.bounced && !job.skip && job.returncode != 0 ==>
                  (times == 1 <==> job.kind != TestSuite
                                   || (job.returncode in {1, 2} && job.xml in {Result("PASS"), Result("SKIP")})))
            && (!r.bounced && !job.skip && job.returncode == 0 ==>
                  times == if job.kind == TestSuite && job.xml !in {Result("PASS"), Result("SKIP")} then 1 else 0)
  {
    CompleteRunVerdict(jobs, processors, s);
    FailedJobsOf(jobs, s.collected, i);
  }
}
