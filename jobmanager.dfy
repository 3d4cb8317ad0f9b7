/**
 * The sequential bookkeeping of the parallel-install job manager: two
 * per-phase registries from component name to the jobs registered for it, the
 * log of finished job statuses, and the accumulated dispatch duration.
 *
 * A dispatch runs one worker per job of a bucket concurrently and drains their
 * statuses from a channel in completion order. That order is not determined,
 * so the model takes it as a parameter: an arrival order, which names each
 * entry of the bucket exactly once.
 */
module JobManager {

  type Component = string
  type JobName = string

  /** The phase a job declares. It is a plain integer: only Pre and Post are
      acted upon, any other value is ignored by the registry. */
  type ExecutionTime = int
  const Pre: ExecutionTime := 0
  const Post: ExecutionTime := 1

  /** A value of the `error` interface: nil, or an error with its message. */
  datatype Error = Nil | Err(message: string)

  /** A job as the dispatcher sees it: its name (`identify`), the component and
      phase it declares (`when`), and the error its `execute` returns, which
      stands for the job's own body. */
  datatype Job = Job(name: JobName, component: Component, phase: ExecutionTime, result: Error)

  /** The outcome of one job in one dispatch. */
  datatype JobStatus = JobStatus(job: JobName, status: bool, err: Error)

  /** The zero status, which the drain loop refuses to record. */
  const EmptyStatus := JobStatus("", false, Nil)

  /** A registry for one phase. */
  type JobMap = map<Component, seq<Job>>

  /** The status a worker publishes for job `j`: successful exactly when the
      job returned nil, carrying the job's own error otherwise. No worker ever
      publishes the zero status. */
  function Worker(j: Job): (s: JobStatus)
    ensures s.job == j.name
    ensures s.status <==> j.result == Nil
    ensures s.err == j.result
    ensures s != EmptyStatus
  {
    if j.result != Nil then JobStatus(j.name, false, j.result)
    else JobStatus(j.name, true, Nil)
  }

  /** The bucket of component `c`; a missing key reads as the empty bucket. */
  function Lookup(m: JobMap, c: Component): (r: seq<Job>)
    ensures c in m ==> r == m[c]
    ensures c !in m ==> r == []
  {
    if c in m then m[c] else []
  }

  /** Every job in `m` sits under the component it declares and has phase `phase`. */
  predicate WellFiled(m: JobMap, phase: ExecutionTime)
  {
    forall c, j :: c in m && j in m[c] ==> j.component == c && j.phase == phase
  }

  /** The registry `m` after appending `j` to the bucket of its component. */
  function Registered(m: JobMap, j: Job): (r: JobMap)
    ensures Lookup(r, j.component) == Lookup(m, j.component) + [j]
    ensures forall c :: c != j.component ==> Lookup(r, c) == Lookup(m, c)
    ensures r.Keys == m.Keys + {j.component}
    ensures WellFiled(m, j.phase) ==> WellFiled(r, j.phase)
  {
    m[j.component := Lookup(m, j.component) + [j]]
  }

  /** The names of a sequence of statuses. */
  function Names(st: seq<JobStatus>): seq<JobName>
  {
    seq(|st|, k requires 0 <= k < |st| => st[k].job)
  }

  /** An arrival order for a bucket of `n` entries: `n` positions, each naming
      a distinct entry of the bucket. */
  predicate IsArrivalOrder(order: seq<nat>, n: nat)
  {
    && |order| == n
    && (forall k :: 0 <= k < |order| ==> order[k] < n)
    && (forall k, l :: 0 <= k < l < |order| ==> order[k] != order[l])
  }

  /** What the status channel delivers for `jobs` when they finish in
      `order`: position k carries the status of entry order[k]. */
  function Arrivals(jobs: seq<Job>, order: seq<nat>): (a: seq<JobStatus>)
    requires IsArrivalOrder(order, |jobs|)
    ensures |a| == |jobs|
  {
    seq(|order|, k requires 0 <= k < |order| => Worker(jobs[order[k]]))
  }

  /** The indices 0 .. n - 1, as a set. */
  function Below(n: nat): (r: set<nat>)
    ensures forall i: nat :: i in r <==> i < n
    ensures |r| == n
  {
    if n == 0 then {} else assert n - 1 !in Below(n - 1); Below(n - 1) + {n - 1}
  }

  /** The entries an order names, as a set. */
  function Named(order: seq<nat>): (r: set<nat>)
    ensures forall i: nat :: i in r <==> i in order
  {
    if order == [] then {} else {order[0]} + Named(order[1..])
  }

  /** An order without repetitions names as many entries as it has positions. */
  lemma {:induction false} NamedCount(order: seq<nat>)
    requires forall k, l :: 0 <= k < l < |order| ==> order[k] != order[l]
    ensures |Named(order)| == |order|
  {
    if order != [] {
      NamedCount(order[1..]);
      assert order[0] !in order[1..];
    }
  }

  /** A subset as large as its superset is the whole superset. */
  lemma SubsetOfSameSize(a: set<nat>, b: set<nat>)
    requires a <= b && |a| == |b|
    ensures a == b
  {
    var rest := b - a;
    assert b == a + rest;
    assert a !! rest;
    assert |b| == |a| + |rest|;
  }

  /** Pigeonhole: an arrival order of a bucket of n entries names every one of
      them. */
  lemma ArrivalOrderCovers(order: seq<nat>, n: nat)
    requires IsArrivalOrder(order, n)
    ensures forall i :: 0 <= i < n ==> i in order
  {
    NamedCount(order);
    SubsetOfSameSize(Named(order), Below(n));
  }

  /** A dispatch delivers one status per entry of the bucket: position k holds
      the status of entry order[k], every entry is named by some position, and
      no two positions name the same entry. */
  lemma DispatchDeliversEachEntryOnce(jobs: seq<Job>, order: seq<nat>)
    requires IsArrivalOrder(order, |jobs|)
    ensures |Arrivals(jobs, order)| == |jobs|
    ensures forall k :: 0 <= k < |jobs| ==> Arrivals(jobs, order)[k] == Worker(jobs[order[k]])
    ensures forall i :: 0 <= i < |jobs| ==> i in order
    ensures forall k, l :: 0 <= k < l < |jobs| ==> order[k] != order[l]
  {
    ArrivalOrderCovers(order, |jobs|);
  }

  /** Every entry's status is delivered, whatever its siblings returned. */
  lemma FailureNeverHidesASibling(jobs: seq<Job>, order: seq<nat>)
    requires IsArrivalOrder(order, |jobs|)
    ensures forall i :: 0 <= i < |jobs| ==> Worker(jobs[i]) in Arrivals(jobs, order)
  {
    var a := Arrivals(jobs, order);
    forall i | 0 <= i < |jobs|
      ensures Worker(jobs[i]) in a
    {
      ArrivalOrderCovers(order, |jobs|);
      assert i in order;
      var k :| 0 <= k < |order| && order[k] == i;
      assert a[k] == Worker(jobs[i]);
    }
  }

  /** The names a dispatch delivers are exactly the bucket's job names: one
      per entry, each delivered name that of some entry, every entry's name
      delivered. */
  lemma DispatchReportsEveryName(jobs: seq<Job>, order: seq<nat>)
    requires IsArrivalOrder(order, |jobs|)
    ensures |Names(Arrivals(jobs, order))| == |jobs|
    ensures forall k :: 0 <= k < |jobs| ==> Names(Arrivals(jobs, order))[k] == jobs[order[k]].name
    ensures forall i :: 0 <= i < |jobs| ==> jobs[i].name in Names(Arrivals(jobs, order))
  {
    var names := Names(Arrivals(jobs, order));
    forall i | 0 <= i < |jobs|
      ensures jobs[i].name in names
    {
      ArrivalOrderCovers(order, |jobs|);
      assert i in order;
      var k :| 0 <= k < |order| && order[k] == i;
      assert names[k] == jobs[i].name;
    }
  }

  /** An absent component dispatches nothing: the only arrival order of the
      empty bucket is empty, and nothing is delivered. */
  lemma AbsentComponentRecordsNothing(m: JobMap, c: Component, order: seq<nat>)
    requires c !in m
    requires IsArrivalOrder(order, |Lookup(m, c)|)
    ensures order == []
    ensures Arrivals(Lookup(m, c), order) == []
  {
  }

  /** In a well-filed registry, a dispatch of `c` runs only jobs registered
      for `c` in that registry's phase. */
  lemma DispatchRunsOnlyTheBucket(m: JobMap, phase: ExecutionTime, c: Component, order: seq<nat>)
    requires WellFiled(m, phase)
    requires IsArrivalOrder(order, |Lookup(m, c)|)
    ensures forall k :: 0 <= k < |order| ==>
              && Arrivals(Lookup(m, c), order)[k] == Worker(Lookup(m, c)[order[k]])
              && Lookup(m, c)[order[k]].component == c
              && Lookup(m, c)[order[k]].phase == phase
  {
    if c in m {
      forall k | 0 <= k < |order|
        ensures Lookup(m, c)[order[k]].component == c && Lookup(m, c)[order[k]].phase == phase
      {
        assert Lookup(m, c)[order[k]] in m[c];
      }
    }
  }

  /** `s` is the status of a job filed in the bucket of `c`, declaring `c` and `phase`. */
  predicate RunFromBucket(s: JobStatus, m: JobMap, c: Component, phase: ExecutionTime)
  {
    exists j :: j in Lookup(m, c) && j.component == c && j.phase == phase && s == Worker(j)
  }

  /** The package state of the job manager. */
  class Manager {
    var duration: int
    var preJobMap: JobMap
    var postJobMap: JobMap
    var finishedJobs: seq<JobStatus>

    /** Every registered job sits in the registry of its phase, under its component. */
    ghost predicate Valid()
      reads this
    {
      WellFiled(preJobMap, Pre) && WellFiled(postJobMap, Post)
    }

    /** The initial package state. */
    constructor ()
      ensures duration == 0 && preJobMap == map[] && postJobMap == map[] && finishedJobs == []
      ensures Valid()
    {
      duration := 0;
      preJobMap := map[];
      postJobMap := map[];
      finishedJobs := [];
    }

    /** Appends `j` to the bucket of its component in the registry of its phase. */
    method Register(j: Job) returns (r: int)
      modifies this`preJobMap, this`postJobMap
      ensures r == 0
      ensures preJobMap == if j.phase == Pre then Registered(old(preJobMap), j) else old(preJobMap)
      ensures postJobMap == if j.phase == Post then Registered(old(postJobMap), j) else old(postJobMap)
      ensures old(Valid()) ==> Valid()
    {
      var component, executionTime := j.component, j.phase;
      if executionTime == Pre {
        preJobMap := preJobMap[component := Lookup(preJobMap, component) + [j]];
      } else if executionTime == Post {
        postJobMap := postJobMap[component := Lookup(postJobMap, component) + [j]];
      }
      r := 0;
    }

    /** Runs the bucket of `c` in `executionMap`, the workers finishing in
        `order` and the whole dispatch taking `elapsed`, and records every
        status in the log. */
    method Execute(c: Component, executionMap: JobMap, order: seq<nat>, elapsed: nat)
      requires IsArrivalOrder(order, |Lookup(executionMap, c)|)
      modifies this`finishedJobs, this`duration
      ensures finishedJobs == old(finishedJobs) + Arrivals(Lookup(executionMap, c), order)
      ensures duration == old(duration) + elapsed
      ensures preJobMap == old(preJobMap) && postJobMap == old(postJobMap)
    {
      var jobs := Lookup(executionMap, c);
      var statusChan := Arrivals(jobs, order);
      var i := 0;
      while i < |statusChan|
        invariant 0 <= i <= |statusChan|
        invariant finishedJobs == old(finishedJobs) + statusChan[..i]
        invariant duration == old(duration)
      {
        var status := statusChan[i];
        assert status == Worker(jobs[order[i]]);
        if status != EmptyStatus {
          finishedJobs := finishedJobs + [status];
        }
        assert statusChan[..i + 1] == statusChan[..i] + [status];
        i := i + 1;
      }
      assert statusChan[..i] == statusChan;
      duration := duration + elapsed;
    }

    /** Dispatches the pre-phase bucket of `c`. */
    method ExecutePre(c: Component, order: seq<nat>, elapsed: nat)
      requires IsArrivalOrder(order, |Lookup(preJobMap, c)|)
      modifies this`finishedJobs, this`duration
      ensures finishedJobs == old(finishedJobs) + Arrivals(Lookup(preJobMap, c), order)
      ensures duration == old(duration) + elapsed
      ensures preJobMap == old(preJobMap) && postJobMap == old(postJobMap)
      ensures old(Valid()) ==>
                forall k :: |old(finishedJobs)| <= k < |finishedJobs| ==>
                  RunFromBucket(finishedJobs[k], preJobMap, c, Pre)
    {
      var before := finishedJobs;
      Execute(c, preJobMap, order, elapsed);
      if old(Valid()) {
        DispatchRunsOnlyTheBucket(preJobMap, Pre, c, order);
        var n := |before|;
        forall k | |old(finishedJobs)| <= k < |finishedJobs|
          ensures RunFromBucket(finishedJobs[k], preJobMap, c, Pre)
        {
          var j := Lookup(preJobMap, c)[order[k - n]];
          assert finishedJobs[k] == Arrivals(Lookup(preJobMap, c), order)[k - n];
          assert j in Lookup(preJobMap, c);
          assert j.component == c && j.phase == Pre && finishedJobs[k] == Worker(j);
        }
      }
    }

    /** Dispatches the post-phase bucket of `c`. */
    method ExecutePost(c: Component, order: seq<nat>, elapsed: nat)
      requires IsArrivalOrder(order, |Lookup(postJobMap, c)|)
      modifies this`finishedJobs, this`duration
      ensures finishedJobs == old(finishedJobs) + Arrivals(Lookup(postJobMap, c), order)
      ensures duration == old(duration) + elapsed
      ensures preJobMap == old(preJobMap) && postJobMap == old(postJobMap)
      ensures old(Valid()) ==>
                forall k :: |old(finishedJobs)| <= k < |finishedJobs| ==>
                  RunFromBucket(finishedJobs[k], postJobMap, c, Post)
    {
      var before := finishedJobs;
      Execute(c, postJobMap, order, elapsed);
      if old(Valid()) {
        DispatchRunsOnlyTheBucket(postJobMap, Post, c, order);
        var n := |before|;
        forall k | |old(finishedJobs)| <= k < |finishedJobs|
          ensures RunFromBucket(finishedJobs[k], postJobMap, c, Post)
        {
          var j := Lookup(postJobMap, c)[order[k - n]];
          assert finishedJobs[k] == Arrivals(Lookup(postJobMap, c), order)[k - n];
          assert j in Lookup(postJobMap, c);
          assert j.component == c && j.phase == Post && finishedJobs[k] == Worker(j);
        }
      }
    }

    /** Reads the accumulated duration and clears it. */
    method GetDuration() returns (ret: int)
      modifies this`duration
      ensures ret == old(duration)
      ensures duration == 0
    {
      ret := duration;
      ResetDuration();
    }

    /** Clears the accumulated duration. */
    method ResetDuration()
      modifies this`duration
      ensures duration == 0
    {
      duration := 0;
    }

    /** Empties the registry of phase `exec`; any other phase value changes nothing. */
    method ResetMap(exec: ExecutionTime)
      modifies this`preJobMap, this`postJobMap
      ensures preJobMap == if exec == Pre then map[] else old(preJobMap)
      ensures postJobMap == if exec == Post then map[] else old(postJobMap)
      ensures old(Valid()) ==> Valid()
    {
      if exec == Pre {
        preJobMap := map[];
      } else if exec == Post {
        postJobMap := map[];
      }
    }

    /** Clears the log of finished jobs. */
    method ResetFinishedJobsMap()
      modifies this`finishedJobs
      ensures finishedJobs == []
    {
      finishedJobs := [];
    }
  }
}
