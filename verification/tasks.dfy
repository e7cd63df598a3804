/**
 The asynchronous side of the director client. A submission is answered with
 a 302 redirect whose `Location` header ends in the id of a director task;
 the daemon then polls that task until it reaches `done` or `error`.

 `main.go` polls without bound. Here the answers to successive polls are a
 finite sequence, and running out of answers before a terminal state is the
 verdict `Pending` (the daemon would still be polling).
 */
module Tasks {
  import opened Outcomes
  import opened Strings
  import opened Director

  const StateDone: string := "done"
  const StateError: string := "error"

  /** The task id: the last `/`-separated segment of the `Location` header. */
  function TaskIdOf(location: string): (id: string)
    ensures '/' !in id
  {
    LastPart(location, '/')
  }

  /** Reference definition: the position just after the last `/` in `s`, or 0 when there is none. */
  ghost function AfterLastSlash(s: string): (i: nat)
    ensures i <= |s|
    ensures i == 0 || s[i - 1] == '/'
    ensures forall k :: i <= k < |s| ==> s[k] != '/'
    decreases |s|
  {
    if |s| == 0 then 0
    else if s[|s| - 1] == '/' then |s|
    else AfterLastSlash(s[..|s| - 1])
  }

  /**
   The task id holds no `/`, is a suffix of the header, and is everything
   after the header's last `/` (the whole header when it has none).
   */
  lemma TaskIdAfterLastSlash(location: string)
    ensures '/' !in TaskIdOf(location)
    ensures TaskIdOf(location) == location[AfterLastSlash(location)..]
    ensures '/' !in location ==> TaskIdOf(location) == location
    ensures '/' in location ==>
      var id := TaskIdOf(location);
      |id| < |location| && location[|location| - |id| - 1] == '/'
  {
    var i := AfterLastSlash(location);
    LastPartAfterLastSeparator(location, '/', i);
    if '/' in location {
      var j :| 0 <= j < |location| && location[j] == '/';
      assert j < i;
    }
  }

  /** An empty or slash-free header is its own task id; a trailing `/` gives an empty one. */
  lemma TaskIdExamples()
    ensures TaskIdOf("") == ""
    ensures TaskIdOf("1234") == "1234"
    ensures TaskIdOf("https://director:25555/tasks/42") == "42"
    ensures TaskIdOf("/tasks/") == ""
  {
    TaskIdAfterLastSlash("");
    TaskIdAfterLastSlash("1234");
    LastPartAfterLastSeparator("https://director:25555/tasks/42", '/', 29);
    LastPartAfterLastSeparator("/tasks/", '/', 7);
  }

  /** A poll after which the loop polls again: status 200 and a non-terminal state. */
  predicate KeepsPolling(poll: Response<string>)
  {
    poll.status == StatusOK && poll.payload != StateDone && poll.payload != StateError
  }

  datatype Verdict = Succeeded | Aborted(failure: Failure) | Pending

  /** How many polls were made and how the follow ended. */
  datatype Follow = Follow(polls: nat, verdict: Verdict)

  /**
   The poll loop of `Deploy`: ask for the task state, stop with success on
   `done`, die on `error` or on a non-200 answer, and poll again on anything
   else. The follow stops at the first poll that does not keep polling, after
   exactly that many polls, and its verdict is read off that poll.
   */
  function FollowTask(taskId: string, polls: seq<Response<string>>): (f: Follow)
    ensures f.polls <= |polls|
    ensures f.verdict.Pending? <==> forall i :: 0 <= i < |polls| ==> KeepsPolling(polls[i])
    ensures f.verdict.Pending? ==> f.polls == |polls|
    ensures !f.verdict.Pending? ==>
      && 1 <= f.polls
      && (forall i :: 0 <= i < f.polls - 1 ==> KeepsPolling(polls[i]))
      && !KeepsPolling(polls[f.polls - 1])
    ensures f.verdict.Succeeded? ==>
      1 <= f.polls && polls[f.polls - 1] == Response(StatusOK, StateDone)
    ensures f.verdict.Aborted? ==>
      1 <= f.polls &&
      var last := polls[f.polls - 1];
      if last.status != StatusOK then f.verdict.failure == UnexpectedStatus(StatusOK, last.status)
      else last.payload == StateError && f.verdict.failure == TaskFailed(taskId)
    decreases |polls|
  {
    if |polls| == 0 then Follow(0, Pending)
    else
      match GetTaskState(polls[0])
      case Fatal(failure) => Follow(1, Aborted(failure))
      case Ok(state) =>
        if state == StateDone then Follow(1, Succeeded)
        else if state == StateError then Follow(1, Aborted(TaskFailed(taskId)))
        else
          var rest := FollowTask(taskId, polls[1..]);
          Follow(rest.polls + 1, rest.verdict)
  }

  /**
   The first poll that does not keep polling decides the follow, whatever
   comes after it: success on `done` after exactly `k + 1` polls, failure on
   `error` or a bad status after exactly `k + 1` polls.
   */
  lemma {:induction false} FollowStopsAtFirstTerminal(taskId: string, polls: seq<Response<string>>, k: nat)
    requires k < |polls|
    requires forall i :: 0 <= i < k ==> KeepsPolling(polls[i])
    requires !KeepsPolling(polls[k])
    ensures FollowTask(taskId, polls).polls == k + 1
    ensures FollowTask(taskId, polls).verdict ==
      if polls[k].status != StatusOK then Aborted(UnexpectedStatus(StatusOK, polls[k].status))
      else if polls[k].payload == StateDone then Succeeded
      else Aborted(TaskFailed(taskId))
    decreases k
  {
    if k > 0 {
      assert KeepsPolling(polls[0]);
      FollowStopsAtFirstTerminal(taskId, polls[1..], k - 1);
    }
  }

  /** The answers after a terminal state are never read. */
  lemma {:induction false} FollowIgnoresLaterPolls(taskId: string, polls: seq<Response<string>>, later: seq<Response<string>>)
    requires !FollowTask(taskId, polls).verdict.Pending?
    ensures FollowTask(taskId, polls + later) == FollowTask(taskId, polls)
    decreases |polls|
  {
    assert |polls| > 0;
    assert (polls + later)[0] == polls[0];
    if KeepsPolling(polls[0]) {
      assert (polls + later)[1..] == polls[1..] + later;
      FollowIgnoresLaterPolls(taskId, polls[1..], later);
    }
  }

  /** `[queued, processing, done]` succeeds after 3 polls; `[queued, error]` fails after 2. */
  lemma FollowExamples(taskId: string)
    ensures FollowTask(taskId, [Response(200, "queued"), Response(200, "processing"), Response(200, "done")])
      == Follow(3, Succeeded)
    ensures FollowTask(taskId, [Response(200, "queued"), Response(200, "error")])
      == Follow(2, Aborted(TaskFailed(taskId)))
    ensures FollowTask(taskId, [Response(200, "queued"), Response(500, "done")])
      == Follow(2, Aborted(UnexpectedStatus(200, 500)))
  {
    FollowStopsAtFirstTerminal(taskId, [Response(200, "queued"), Response(200, "processing"), Response(200, "done")], 2);
    FollowStopsAtFirstTerminal(taskId, [Response(200, "queued"), Response(200, "error")], 1);
    FollowStopsAtFirstTerminal(taskId, [Response(200, "queued"), Response(500, "done")], 1);
  }

  /** A submission the director accepted: the task it started and how following it went. */
  datatype TaskRun = TaskRun(taskId: string, follow: Follow)

  /**
   `Deploy` after the manifest has been serialised and posted: fatal unless
   the answer is a 302; otherwise the task named by the `Location` header is
   followed through the given poll answers.
   */
  function Deploy(resp: Response<string>, polls: seq<Response<string>>): (r: Result<TaskRun>)
    ensures r.Fatal? <==> resp.status != StatusFound
    ensures r.Fatal? ==> r.failure == UnexpectedStatus(StatusFound, resp.status)
    ensures r.Ok? ==> '/' !in r.value.taskId
    ensures r.Ok? ==> r.value.taskId == resp.payload[AfterLastSlash(resp.payload)..]
    ensures r.Ok? ==> r.value.follow == FollowTask(r.value.taskId, polls)
  {
    if resp.status != StatusFound then Fatal(UnexpectedStatus(StatusFound, resp.status))
    else
      TaskIdAfterLastSlash(resp.payload);
      var taskId := TaskIdOf(resp.payload);
      Ok(TaskRun(taskId, FollowTask(taskId, polls)))
  }
}
