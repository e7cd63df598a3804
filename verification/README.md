# bosh-scaling-daemon, modelled in Dafny

A model of one pass of the scaling daemon's control loop. The daemon asks a
BOSH director for its deployments and leaves out its own. For each other
deployment it downloads the manifest and decides, instance group by instance
group, whether to double the instance count. A group at or above a ceiling of
4 is never scaled. When some group was scaled, the daemon posts the manifest
back and follows the director task that the post starts until the task is
`done`. Every failure is fatal to the process.

HTTP, JSON/YAML and the clock are abstracted away:

- A director answer is a `Response(status, payload)`. The payload is the
  already-decoded body, or the `Location` header for a post.
- The random draw for each instance group is an oracle `signal: nat -> bool`,
  indexed by the group's position in the manifest.
- The answers to successive task polls are a finite sequence. If the answers
  run out before a terminal state, the verdict is `Pending`: the daemon would
  still be polling.
- A fatal `log.Fatal` becomes a `Failure` value (`Outcomes.Result.Fatal`, or
  `ControlLoop.Iteration.Failed` for a whole pass).

Modules, one per part of `main.go`:

| module | file | what |
|---|---|---|
| `Outcomes` | outcomes.dfy | the fatal failures and a `Result` type |
| `Strings` | strings.dfy | `strings.Split` on one character, and `Join` |
| `Manifests` | manifests.dfy | the `Manifest` record shape; Go's 64-bit `int` |
| `Director` | director.dfy | status gates, `ListDeployments` with its self filter, `DownloadManifest`, `GetTaskState` |
| `Tasks` | tasks.dfy | task id from `Location`, the poll loop, `Deploy` |
| `Scaling` | scaling.dfy | the ceiling gate and the doubling |
| `ControlLoop` | control_loop.dfy | flag validation and one pass of the loop |

## Model

| member | source | states |
|---|---|---|
| `Director.Expect` | main.go:49-51 | The status gate shared by every call. The result is fatal with `UnexpectedStatus(code, status)` exactly when the status differs from the expected code. Otherwise it is the payload unchanged. |
| `Director.Without` | main.go:56-61 | Reference filter. `self` never appears in the result. For every other name, the result holds exactly as many copies as the input. The result is no longer than the input. |
| `Director.WithoutAppend` | main.go:56-61 | The filter works piecewise over concatenation, so the kept names stay in their original order. |
| `Director.WithoutNothingToDrop` | main.go:56-61 | A listing that does not contain `self` passes through unchanged. |
| `Director.WithoutIdempotent` | main.go:56-61 | Filtering twice gives the same result as filtering once. |
| `Director.ExcludeSelf` | main.go:56-61 | The append loop computes exactly the reference filter of the listed names, and `self` is not in its result. |
| `Director.ListDeployments` | main.go:39-64 | Fatal, with `UnexpectedStatus(200, status)`, exactly when the status is not 200. Otherwise the result is the listed names in order, with every occurrence of `self` dropped. |
| `Director.DownloadManifest` | main.go:66-86 | Fatal exactly when the status is not 200. Otherwise the result is the embedded manifest. |
| `Director.GetTaskState` | main.go:92-109 | Fatal exactly when the status is not 200. Otherwise the result is the task's `state`. |
| `Strings.Split` | main.go:128 | The split always has at least one piece, and no piece contains the separator. |
| `Strings.JoinSplit` | main.go:128 | Joining the pieces with the separator gives back the original string. |
| `Strings.SplitWithoutSeparator` | main.go:128 | A string without the separator splits into itself alone. |
| `Strings.SplitAround` | main.go:128 | Splitting `a + sep + b` gives the pieces of `a` followed by the pieces of `b`. |
| `Strings.LastPartAfterLastSeparator` | main.go:128-129 | The last piece is exactly the text after the last separator, or the whole string when there is no separator. |
| `Tasks.TaskIdOf` | main.go:128-129 | Computes the task id as the last piece of splitting `Location` on `/`. The id never contains a `/`. `Tasks.TaskIdAfterLastSlash` states that it is exactly the text after the last `/`. |
| `Tasks.AfterLastSlash` | main.go:128-129 | Reference position: 0 or just after a `/`, with no `/` after it. |
| `Tasks.TaskIdAfterLastSlash` | main.go:128-129 | The task id contains no `/` and is the suffix after the header's last `/`. A header with no `/` is its own id. Otherwise the character just before the id is a `/`. |
| `Tasks.TaskIdExamples` | main.go:128-129 | An empty header gives an empty id. `1234` gives `1234`. A full task URL gives its trailing number. A trailing `/` gives an empty id. |
| `Tasks.FollowTask` | main.go:131-143 | Polling stops at the first answer that is not a 200 with a non-terminal state, after exactly that many polls. The verdict is success on `done`, `TaskFailed` on `error`, and `UnexpectedStatus` on a non-200 answer. The verdict is `Pending` exactly when every answer keeps polling. |
| `Tasks.FollowStopsAtFirstTerminal` | main.go:131-143 | If the first stopping answer is at index `k`, the follow uses exactly `k + 1` polls, and that answer alone fixes the verdict. |
| `Tasks.FollowIgnoresLaterPolls` | main.go:135-139 | Once a follow has reached a verdict, extra answers after it change nothing. |
| `Tasks.FollowExamples` | main.go:131-143 | `[queued, processing, done]` succeeds after 3 polls. `[queued, error]` fails after 2 polls. A 500 on the second poll is fatal after 2 polls. |
| `Tasks.Deploy` | main.go:111-144 | Fatal exactly when the post's status is not 302. Otherwise the task id is the slash-free tail of `Location`, and that task is followed. |
| `Manifests.Wrap64` | main.go:224 | In-range values are unchanged. Every result is congruent to its input modulo 2^64. |
| `Scaling.Double` | main.go:193 | `2 * n` is exact for every count that fits in 63 bits. Every result is congruent to `2 * n` modulo 2^64, as Go's 64-bit multiplication is. |
| `Scaling.DoubleWrapsAtMinimum` | main.go:193 | Counts below -2^62 overflow when doubled. The most negative Go `int` doubles to 0, and -2^62 - 1 doubles to 2^63 - 2. |
| `Scaling.Decide` | main.go:181-197 | Only instance counts change. A group at or above 4 keeps its count under any signal. Below 4, a negative signal leaves the count unchanged. A positive signal gives `Double(count)`, which is exactly twice the count for counts not below -2^62. Resubmission happens exactly when some group below 4 got a positive signal. |
| `Scaling.ScaleInstanceGroups` | main.go:181-197 | The in-place loop with its `scaledDeployment` flag computes exactly the reference decision. |
| `Scaling.GateNotClamp` | main.go:183-196 | 3 becomes 6, not 4. 0 stays 0 but still triggers a resubmission. A negative signal on the 3 leaves the manifest unchanged. |
| `Scaling.PinnedManifestUntouched` | main.go:182-186 | A manifest whose groups are all at or above 4 is returned unchanged and not resubmitted, whatever the signals. |
| `Scaling.ScaleThenPinned` | main.go:181-202 | A group of 2 with a positive signal becomes 4 and is resubmitted. In the next round it is left alone and nothing is resubmitted. |
| `Scaling.RoundsOnlyChangeCounts` | main.go:182-197 | Across any number of rounds, names, group order, group count and every other manifest field stay the same. |
| `Scaling.PinnedForever` | main.go:183-186 | A group at or above the ceiling keeps its count through every later round. |
| `Scaling.RoundsStayBounded` | main.go:183-196 | Counts between 0 and 6 stay between 0 and 6 in every round. |
| `ControlLoop.ValidateFlags` | main.go:156-163 | Succeeds exactly when the port is non-zero and all four string flags are non-empty, and then carries exactly the given values. A zero port is reported first. |
| `ControlLoop.HandleDeployment` | main.go:173-202 | A non-200 download is fatal. An unchanged decision finishes with no submission. A changed decision is posted, and a non-302 answer is fatal. After a 302, the follow of the `Location` task decides: `done` finishes with the decided manifest submitted as that task, `error` or a non-200 poll fails with that failure, and answers that run out leave the pass stalled on that task. |
| `ControlLoop.Process` | main.go:173-203 | A finished run has one report per deployment, in order, each matching handling that deployment alone. Any other outcome is the outcome of the first deployment that did not finish. |
| `ControlLoop.RunIteration` | main.go:168-203 | A non-200 listing is fatal. A pass finishes only when handling every listed deployment other than `self` finishes, and then it holds exactly that step's report for each deployment, in listing order. Each report carries its decided manifest, and a deployment is resubmitted exactly when its decision scaled something. Any other outcome of a pass over a 200 listing is the outcome of the first deployment, in that order, that did not finish. |
| `ControlLoop.PassFinishesWhenEveryStepDoes` | main.go:168-203 | Over a 200 listing, the pass finishes when handling each listed deployment other than `self` finishes. |
| `ControlLoop.PinnedFleetIsQuiet` | main.go:181-202 | When every manifest downloads fine and is fully at the ceiling, the run finishes with no submissions and unchanged manifests. |
| `ControlLoop.ScenarioDeploymentScaled` | main.go:173-202 | The scenario deployment's group of 2 becomes 4. It is posted, and the run follows task 7 to `done`. |
| `ControlLoop.ScaleOneDeployment` | main.go:168-203 | The listing `[scaler, web]` with `self = scaler` handles only `web`. Its count goes from 2 to 4, and it is submitted as task 7. |

## Left out

- HTTP transport, basic auth, TLS settings and the `herottp` client (main.go:26-33, 40-47). These are network plumbing over a library that is not part of this model. A transport error is fatal in `main.go` and has no counterpart here.
- JSON and YAML decoding and encoding (main.go:54, 83, 107, 112, 179). Payloads arrive already decoded. A decoding failure, which is fatal in `main.go`, is not modelled.
- The `math/rand` float draw and its `> 0.5` test (main.go:189-191). This is floating point, and it is replaced by the boolean oracle `signal`.
- `time.Sleep`, logging, and the endless outer loop (main.go:134, 167-168, 205). One pass is modelled. `Scaling.Rounds` chains decisions only to state the round-over-round invariants.
- Unbounded polling (main.go:131-143). The poll answers are finite, and when they run out the verdict is `Pending` (the pass is `Stalled`).
- Flag parsing itself (main.go:149-155). Only the check on the parsed values is modelled (`ControlLoop.ValidateFlags`).
- A metrics probe and a VMs listing. `main.go` has neither: its scale-up signal is a random draw.
- A lossless manifest round trip through text. The Go struct keeps only the fields it names (main.go:209-242), so the model keeps only those fields and claims no round trip.
- A task id returned by `Deploy`. `Deploy` returns nothing (main.go:111-144). The model keeps the id in `TaskRun` only for reporting.
- A 32-bit Go `int`. The model fixes `int` at 64 bits (`Manifests.Int64`, `Manifests.Wrap64`). On a 32-bit platform, `2 * Instances` would wrap at -2^30 and above 2^30 - 1 instead.
- Scaling.Decide: exact doubling is promised only for counts not below -2^62. Below that, Go's 64-bit `2 * n` overflows, and the model states only that the count becomes `Double(before)`, congruent to twice the count modulo 2^64.
