# Job manager of parallel-install, modelled in Dafny

This project models the sequential bookkeeping of the `jobmanager` package of
parallel-install. The package keeps its state in package globals:

- two registries, `preJobMap` and `postJobMap`, from component name to the jobs
  registered for it in that phase;
- the log `finishedJobs` of job statuses, appended by every dispatch;
- the counter `duration`, which every dispatch increases by its elapsed time.

The class `JobManager.Manager` holds these globals as fields. Its constructor is
the package's initial state. Its methods are the package's operations, each with
a `modifies` clause and an `ensures` that gives the whole new state:
`Register`, `Execute`, `ExecutePre`, `ExecutePost`, `GetDuration`,
`ResetDuration`, `ResetMap` and `ResetFinishedJobsMap`.

A job is a value `Job(name, component, phase, result)`:

- `name` is what `identify()` returns;
- `component` and `phase` are what `when()` returns;
- `result` is the `error` its `execute` returns, where `Nil` is nil.

The phase is a plain integer, as `executionTime` is in Go. `Pre` is 0 and
`Post` is 1, and any other value is ignored by `register` and `resetMap`.

A dispatch starts one worker per bucket entry. The statuses then come off the
channel in completion order. The model takes that order as a parameter, an
arrival order (`IsArrivalOrder`): a sequence of n distinct indices, each below
n, for a bucket of n entries. Position k of the channel carries the status of
entry `order[k]` (`Arrivals`). `ArrivalOrderCovers` proves, by counting, that
such an order names every index of the bucket, so every worker's status is
delivered exactly once. The drain loop of `Execute` appends each delivered
status to the log. It keeps the source's `status != emptyJob` filter, and
`Worker` proves that no worker ever produces the zero status, so the filter
never drops one. The elapsed time of a dispatch is a parameter `elapsed: nat`.

The module `JobManagerTest` restates the scenarios of `jobmanager_test.go` over
the same sample jobs: lemmas about dispatch for every arrival order, and
harness methods that drive a `Manager` through registration, dispatch, duration
reads and resets.

## Model

| member | source | states |
|---|---|---|
| `JobManager.Worker` | parallel-install/pkg/jobmanager/jobmanager.go:121-130 | the status carries the job's name; it is successful exactly when the job returned nil; its error is the job's own error; it is never the zero status |
| `JobManager.Lookup` | parallel-install/pkg/jobmanager/jobmanager.go:90 | a component with a key reads as its bucket; a missing key reads as the empty bucket, as Go's nil slice does |
| `JobManager.Arrivals` | parallel-install/pkg/jobmanager/jobmanager.go:90-102 | one worker status per bucket entry comes off the channel, so the channel carries exactly as many statuses as the bucket has entries |
| `JobManager.Registered` | parallel-install/pkg/jobmanager/jobmanager.go:46-54 | the job's component bucket gains the job at its end; every other bucket reads as before; the key set gains the component; a registry whose jobs all sit under their declared component and phase stays so |
| `JobManager.Manager.constructor` | parallel-install/pkg/jobmanager/jobmanager.go:34-38 | both registries and the finished-jobs log start empty, the duration starts at 0, and the registry invariant holds |
| `JobManager.Manager.Register` | parallel-install/pkg/jobmanager/jobmanager.go:46-54 | returns 0; a Pre job is appended in the pre registry only, a Post job in the post registry only, a job of any other phase changes nothing; the registry invariant is kept |
| `JobManager.Manager.Execute` | parallel-install/pkg/jobmanager/jobmanager.go:85-119 | the log becomes the old log followed by the bucket's statuses in arrival order; the duration grows by the elapsed time; neither registry changes |
| `JobManager.Manager.ExecutePre` | parallel-install/pkg/jobmanager/jobmanager.go:73-75 | dispatches the component's pre-phase bucket, with the effect of Execute on the pre registry; when every registered job is filed under its component and phase, each status it appends is that of a job in the pre bucket of the component that declares that component and phase Pre |
| `JobManager.Manager.ExecutePost` | parallel-install/pkg/jobmanager/jobmanager.go:79-81 | dispatches the component's post-phase bucket, with the effect of Execute on the post registry; when every registered job is filed under its component and phase, each status it appends is that of a job in the post bucket of the component that declares that component and phase Post |
| `JobManager.Manager.GetDuration` | parallel-install/pkg/jobmanager/jobmanager.go:133-137 | returns the duration held before the call and leaves it at 0 |
| `JobManager.Manager.ResetDuration` | parallel-install/pkg/jobmanager/jobmanager.go:139-141 | the duration is 0 afterwards, whatever it was |
| `JobManager.Manager.ResetMap` | parallel-install/pkg/jobmanager/jobmanager.go:143-149 | Pre empties the pre registry and leaves the post one; Post does the converse; any other value changes neither; the registry invariant is kept |
| `JobManager.Manager.ResetFinishedJobsMap` | parallel-install/pkg/jobmanager/jobmanager.go:151-153 | the finished-jobs log is empty afterwards |
| `JobManager.ArrivalOrderCovers` | parallel-install/pkg/jobmanager/jobmanager.go:91-97 | an arrival order of n distinct indices below n names every index below n: with one worker per entry and a channel sized to the bucket, no entry's status is missing |
| `JobManager.DispatchDeliversEachEntryOnce` | parallel-install/pkg/jobmanager/jobmanager.go:90-115 | a dispatch of a bucket of n entries delivers exactly n statuses; position k holds the worker status of entry order[k]; every entry index is delivered, and none twice |
| `JobManager.DispatchReportsEveryName` | parallel-install/pkg/jobmanager/jobmanager.go:95-108 | one name is reported per entry; position k carries the `identify()` name of entry order[k]; every entry's name is reported |
| `JobManager.FailureNeverHidesASibling` | parallel-install/pkg/jobmanager/jobmanager.go:105-114 | every entry's status is delivered, whatever the other entries returned |
| `JobManager.AbsentComponentRecordsNothing` | parallel-install/pkg/jobmanager/jobmanager.go:90-98 | a component with no key in the map has an empty arrival order and delivers no status |
| `JobManager.DispatchRunsOnlyTheBucket` | parallel-install/pkg/jobmanager/jobmanager.go:90-96 | in a registry where every job sits under its declared component and phase, each delivered status is that of a bucket entry that declares the requested component and that phase |
| `JobManagerTest.InitJobMap` | parallel-install/pkg/jobmanager/jobmanager_test.go:162-171 | the test registry has exactly the keys componentOne to componentFour, holding [sampleOne, sampleTwo], [sampleThree], [sampleFour] and [sampleFive] |
| `JobManagerTest.RegisterHarness` | parallel-install/pkg/jobmanager/jobmanager.go:46-54 | registering the five sample jobs on a fresh manager files componentOne and componentTwo in the pre registry and componentThree and componentFour in the post registry, each bucket in registration order, with the registry invariant kept |
| `JobManagerTest.DispatchHarness` | parallel-install/pkg/jobmanager/jobmanager.go:133-137 | after a post dispatch of sampleFive and a pre dispatch of a missing component, the log holds exactly sampleFive's failed status; the first GetDuration reads the sum of both elapsed times and a second read finds 0 |
| `JobManagerTest.ResetHarness` | parallel-install/pkg/jobmanager/jobmanager_test.go:111-137 | resetDuration clears a duration of one hour and ten seconds; resetMap(Pre) leaves the filled post registry intact, as does a phase value that is neither Pre nor Post; resetMap(Post) then empties it, so both registries end empty |
| `JobManagerTest.ConcurrentPreJobs` | parallel-install/pkg/jobmanager/jobmanager_test.go:22-46 | dispatching componentOne, in either arrival order, records sampleOne and sampleTwo, both successful, and not sampleThree, sampleFour or sampleFive |
| `JobManagerTest.SinglePreJob` | parallel-install/pkg/jobmanager/jobmanager_test.go:48-68 | dispatching componentTwo records exactly one successful status, for sampleThree |
| `JobManagerTest.NoJobsTriggered` | parallel-install/pkg/jobmanager/jobmanager_test.go:70-89 | dispatching nonExistingComponent records nothing |
| `JobManagerTest.JobErrorIsCaught` | parallel-install/pkg/jobmanager/jobmanager_test.go:91-109 | dispatching componentFour through a map holding only sampleFive's bucket records one failed status with the error JobFiveError |
| `JobManagerTest.MixedBucket` | parallel-install/pkg/jobmanager/jobmanager.go:121-130 | a bucket with one passing and one failing job records both, one successful and one failed, in either arrival order |

## Left out

- Goroutines, the `sync.WaitGroup`, the buffered channel and the goroutine that closes it are not modelled as such. Their only effect on the state is the arrival order, which is a parameter.
- `context.Context` is not modelled. The code only passes it through to the jobs. The comment on `ExecutePre`/`ExecutePost` says that cancellation skips the remaining components, but the code does not do that, and the model follows the code.
- `time.Now` and `t.Sub` are replaced by the parameter `elapsed: nat`. The tests' `GetDuration() != 0` holds only because wall-clock time passes. The model allows `elapsed == 0`, so it does not promise a non-zero duration.
- JobManager.Manager.Execute: `duration` is an unbounded integer. The int64 nanosecond wrap-around of `time.Duration` is not modelled.
- Logging (`log.Infof`) is not modelled. The code emits a "Job Status" line for every status, then a success line or a failure line, so each job gets two lines.
- `SetConfig`, `SetKubeClient` and `SetLogger` are not modelled, and neither are the globals `cfg`, `kubeClient` and `log`. They are setters for opaque collaborators that the bookkeeping never reads.
- The bodies of the jobs' `execute` methods are not modelled, including the test jobs' log calls. A job's outcome is the error stored in its `Job` value, so a registered job has the same outcome on every dispatch until the registry changes: two `ExecutePre` calls on an unchanged registry record the same statuses. In Go, a job's `execute` may fail once and succeed later; the model does not capture that.
- The tests' zap observer, and their checks on log messages, are not modelled. The scenario lemmas check the recorded statuses instead.
