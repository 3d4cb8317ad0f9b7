/**
 * The job manager's test scenarios: the five sample jobs, the registry the
 * dispatch tests run against, and what each dispatch and reset must record.
 */
module JobManagerTest {
  import opened JobManager

  const SampleOne := Job("sampleOne", "componentOne", Pre, Nil)
  const SampleTwo := Job("sampleTwo", "componentOne", Pre, Nil)
  const SampleThree := Job("sampleThree", "componentTwo", Pre, Nil)
  const SampleFour := Job("sampleFour", "componentThree", Post, Nil)
  const SampleFive := Job("sampleFive", "componentFour", Post, Err("JobFiveError"))

  /** The registry the dispatch tests build by hand. */
  function InitJobMap(): (m: JobMap)
    ensures m.Keys == {"componentOne", "componentTwo", "componentThree", "componentFour"}
    ensures Lookup(m, "componentOne") == [SampleOne, SampleTwo]
    ensures Lookup(m, "componentTwo") == [SampleThree]
    ensures Lookup(m, "componentThree") == [SampleFour]
    ensures Lookup(m, "componentFour") == [SampleFive]
  {
    map["componentOne" := [SampleOne, SampleTwo],
        "componentTwo" := [SampleThree],
        "componentThree" := [SampleFour],
        "componentFour" := [SampleFive]]
  }

  /** Dispatching componentOne, in either arrival order, records sampleOne and
      sampleTwo, both successful, and none of the other sample jobs. */
  lemma ConcurrentPreJobs(order: seq<nat>)
    requires IsArrivalOrder(order, 2)
    ensures |Lookup(InitJobMap(), "componentOne")| == 2
    ensures Names(Arrivals(Lookup(InitJobMap(), "componentOne"), order)) in
              {["sampleOne", "sampleTwo"], ["sampleTwo", "sampleOne"]}
    ensures forall k :: 0 <= k < |order| ==> Arrivals(Lookup(InitJobMap(), "componentOne"), order)[k].status
    ensures "sampleThree" !in Names(Arrivals(Lookup(InitJobMap(), "componentOne"), order))
    ensures "sampleFour" !in Names(Arrivals(Lookup(InitJobMap(), "componentOne"), order))
    ensures "sampleFive" !in Names(Arrivals(Lookup(InitJobMap(), "componentOne"), order))
  {
    var jobs := Lookup(InitJobMap(), "componentOne");
    assert jobs == [SampleOne, SampleTwo];
    DispatchReportsEveryName(jobs, order);
    assert order[0] < 2 && order[1] < 2 && order[0] != order[1];
    var names := Names(Arrivals(jobs, order));
    if order[0] == 0 {
      assert names == ["sampleOne", "sampleTwo"];
    } else {
      assert names == ["sampleTwo", "sampleOne"];
    }
  }

  /** Dispatching componentTwo records exactly sampleThree, successful. */
  lemma SinglePreJob(order: seq<nat>)
    requires IsArrivalOrder(order, 1)
    ensures |Lookup(InitJobMap(), "componentTwo")| == 1
    ensures Arrivals(Lookup(InitJobMap(), "componentTwo"), order) == [JobStatus("sampleThree", true, Nil)]
  {
    var jobs := Lookup(InitJobMap(), "componentTwo");
    assert jobs == [SampleThree];
    DispatchDeliversEachEntryOnce(jobs, order);
  }

  /** Dispatching a component without a bucket records nothing. */
  lemma NoJobsTriggered(order: seq<nat>)
    requires IsArrivalOrder(order, 0)
    ensures Arrivals(Lookup(InitJobMap(), "nonExistingComponent"), order) == []
  {
    AbsentComponentRecordsNothing(InitJobMap(), "nonExistingComponent", order);
  }

  /** A failing job, dispatched through a map holding only its bucket, is
      recorded as failed, with its own error. */
  lemma JobErrorIsCaught(order: seq<nat>)
    requires IsArrivalOrder(order, 1)
    ensures Arrivals(Lookup(map["componentFour" := [SampleFive]], "componentFour"), order)
              == [JobStatus("sampleFive", false, Err("JobFiveError"))]
  {
    var jobs := Lookup(map["componentFour" := [SampleFive]], "componentFour");
    assert jobs == [SampleFive];
    DispatchDeliversEachEntryOnce(jobs, order);
  }

  /** A passing and a failing job in one bucket: both are recorded, one
      successful and one failed, whichever finishes first. */
  lemma MixedBucket(order: seq<nat>)
    requires IsArrivalOrder(order, 2)
    ensures JobStatus("sampleFour", true, Nil) in Arrivals([SampleFour, SampleFive], order)
    ensures JobStatus("sampleFive", false, Err("JobFiveError")) in Arrivals([SampleFour, SampleFive], order)
  {
    var jobs := [SampleFour, SampleFive];
    FailureNeverHidesASibling(jobs, order);
    assert Worker(jobs[0]) == JobStatus("sampleFour", true, Nil);
    assert Worker(jobs[1]) == JobStatus("sampleFive", false, Err("JobFiveError"));
  }

  /** Registering the five sample jobs files each under its component and phase. */
  method RegisterHarness() returns (m: Manager)
    ensures m.Valid()
    ensures m.preJobMap.Keys == {"componentOne", "componentTwo"}
    ensures m.postJobMap.Keys == {"componentThree", "componentFour"}
    ensures Lookup(m.preJobMap, "componentOne") == [SampleOne, SampleTwo]
    ensures Lookup(m.preJobMap, "componentTwo") == [SampleThree]
    ensures Lookup(m.postJobMap, "componentThree") == [SampleFour]
    ensures Lookup(m.postJobMap, "componentFour") == [SampleFive]
  {
    m := new Manager();
    var r := m.Register(SampleOne);
    assert r == 0;
    r := m.Register(SampleTwo);
    r := m.Register(SampleThree);
    assert Lookup(m.preJobMap, "componentOne") == [SampleOne, SampleTwo];
    assert Lookup(m.preJobMap, "componentTwo") == [SampleThree];
    r := m.Register(SampleFour);
    r := m.Register(SampleFive);
  }

  /** Dispatches record their statuses and accrue their time; GetDuration
      reads the total once and a second read finds 0. */
  method DispatchHarness(elapsed1: nat, elapsed2: nat) returns (log: seq<JobStatus>, first: int, second: int)
    ensures log == [JobStatus("sampleFive", false, Err("JobFiveError"))]
    ensures first == elapsed1 + elapsed2
    ensures second == 0
  {
    var m := new Manager();
    var r := m.Register(SampleFive);
    assert Lookup(m.postJobMap, "componentFour") == [SampleFive];
    m.ExecutePost("componentFour", [0], elapsed1);
    m.ExecutePre("nonExistingComponent", [], elapsed2);
    log := m.finishedJobs;
    first := m.GetDuration();
    second := m.GetDuration();
    m.ResetFinishedJobsMap();
    assert m.finishedJobs == [];
  }

  /** resetDuration clears any duration; resetMap clears one phase only. */
  method ResetHarness() returns (m: Manager, postAfterPreReset: JobMap)
    ensures m.duration == 0
    ensures postAfterPreReset == map["componentOne" := [SampleOne, SampleTwo], "componentTwo" := [SampleThree]]
    ensures m.preJobMap == map[] && m.postJobMap == map[]
  {
    m := new Manager();
    m.duration := 3_610_000_000_000;
    m.ResetDuration();

    m.preJobMap := map["componentOne" := [SampleOne, SampleTwo], "componentTwo" := [SampleThree]];
    m.postJobMap := map["componentOne" := [SampleOne, SampleTwo], "componentTwo" := [SampleThree]];
    m.ResetMap(Pre);
    assert m.preJobMap == map[];
    m.ResetMap(7);
    postAfterPreReset := m.postJobMap;
    m.ResetMap(Post);
  }
}
