/**
 One pass of the daemon's endless loop: list the deployments other than its
 own, and for each one in listing order download its manifest, decide, and
 when the decision asks for it resubmit the manifest and follow the task the
 director starts. Any failure ends the pass (and, in the daemon, the process).
 */
module ControlLoop {
  import opened Outcomes
  import opened Strings
  import opened Manifests
  import opened Director
  import opened Tasks
  import opened Scaling

  /** The start-up flags, once checked. */
  datatype Config = Config(
    port: Int64,
    directorUrl: string,
    username: string,
    password: string,
    thisDeployment: string)

  /**
   The flag check in `main`: a zero port is fatal, then so is any empty
   mandatory string flag. A negative port passes.
   */
  function ValidateFlags(port: Int64, directorUrl: string, username: string, password: string, thisDeployment: string)
    : (r: Result<Config>)
    ensures r.Ok? <==>
      port != 0 && directorUrl != "" && username != "" && password != "" && thisDeployment != ""
    ensures port == 0 ==> r == Fatal(MissingPort)
    ensures port != 0 && r.Fatal? ==> r.failure == MissingFlag
    ensures r.Ok? ==> r.value == Config(port, directorUrl, username, password, thisDeployment)
  {
    if port == 0 then Fatal(MissingPort)
    else if exists i :: 0 <= i < 4 && [directorUrl, username, password, thisDeployment][i] == "" then
      Fatal(MissingFlag)
    else
      assert [directorUrl, username, password, thisDeployment][0] == directorUrl;
      assert [directorUrl, username, password, thisDeployment][1] == username;
      assert [directorUrl, username, password, thisDeployment][2] == password;
      assert [directorUrl, username, password, thisDeployment][3] == thisDeployment;
      Ok(Config(port, directorUrl, username, password, thisDeployment))
  }

  /**
   Everything the outside world answers while one deployment is handled: the
   manifest download (its manifest already decoded), the scale-up draw for
   each instance group, the answer to the submission (its `Location`
   header) and the answers to the task polls.
   */
  datatype Exchange = Exchange(
    download: Response<Manifest>,
    signal: nat -> bool,
    submit: Response<string>,
    polls: seq<Response<string>>)

  datatype Submission = NotSubmitted | SubmittedAs(taskId: string)

  /** What handling one deployment to completion produced. */
  datatype Report = Report(deployment: string, manifest: Manifest, submission: Submission)

  /**
   How a pass ended: every deployment handled; a fatal failure; or blocked
   on a task that was still running when its poll answers ran out.
   */
  datatype Iteration =
    | Finished(reports: seq<Report>)
    | Failed(failure: Failure)
    | Stalled(deployment: string, taskId: string)

  /**
   One deployment: a non-200 download is fatal; an unchanged decision ends
   quietly; a changed one is deployed, and the pass goes on only once its
   task is `done`.
   */
  function HandleDeployment(name: string, ex: Exchange): (it: Iteration)
    ensures ex.download.status != StatusOK ==> it == Failed(UnexpectedStatus(StatusOK, ex.download.status))
    ensures ex.download.status == StatusOK ==>
      var d := Decide(ex.download.payload, ex.signal);
      && (!d.scaled ==> it == Finished([Report(name, d.manifest, NotSubmitted)]))
      && (d.scaled && ex.submit.status != StatusFound ==> it == Failed(UnexpectedStatus(StatusFound, ex.submit.status)))
    ensures it.Finished? ==>
      && ex.download.status == StatusOK
      && |it.reports| == 1
      && it.reports[0].deployment == name
      && it.reports[0].manifest == Decide(ex.download.payload, ex.signal).manifest
      && (it.reports[0].submission.SubmittedAs? <==> Decide(ex.download.payload, ex.signal).scaled)
    ensures it.Finished? && it.reports[0].submission.SubmittedAs? ==>
      && ex.submit.status == StatusFound
      && it.reports[0].submission.taskId == TaskIdOf(ex.submit.payload)
      && FollowTask(TaskIdOf(ex.submit.payload), ex.polls).verdict == Succeeded
    ensures it.Stalled? ==> it.deployment == name
    ensures ex.download.status == StatusOK && Decide(ex.download.payload, ex.signal).scaled
            && ex.submit.status == StatusFound ==>
      var id := TaskIdOf(ex.submit.payload);
      match FollowTask(id, ex.polls).verdict
      case Succeeded => it == Finished([Report(name, Decide(ex.download.payload, ex.signal).manifest, SubmittedAs(id))])
      case Aborted(failure) => it == Failed(failure)
      case Pending => it == Stalled(name, id)
  {
    match DownloadManifest(ex.download)
    case Fatal(failure) => Failed(failure)
    case Ok(manifest) =>
      var d := Decide(manifest, ex.signal);
      if !d.scaled then Finished([Report(name, d.manifest, NotSubmitted)])
      else
        match Deploy(ex.submit, ex.polls)
        case Fatal(failure) => Failed(failure)
        case Ok(run) =>
          match run.follow.verdict
          case Succeeded => Finished([Report(name, d.manifest, SubmittedAs(run.taskId))])
          case Aborted(failure) => Failed(failure)
          case Pending => Stalled(name, run.taskId)
  }

  /**
   The deployments in order, the `k`-th one handled against `exchange(next + k)`.
   A finished pass holds one report per deployment, in order, each the one
   handling that deployment produced; any other outcome is the outcome of the
   first deployment that did not finish, and nothing after it is handled.
   */
  function Process(names: seq<string>, exchange: nat -> Exchange, next: nat): (it: Iteration)
    ensures it.Finished? ==>
      && |it.reports| == |names|
      && forall k :: 0 <= k < |names| ==>
           var step := HandleDeployment(names[k], exchange(next + k));
           step.Finished? && it.reports[k] == step.reports[0]
    ensures !it.Finished? ==> exists k :: HaltsAt(Steps(names, exchange, next), k, it)
    decreases |names|
  {
    if |names| == 0 then Finished([])
    else
      var step := HandleDeployment(names[0], exchange(next));
      if !step.Finished? then
        assert HaltsAt(Steps(names, exchange, next), 0, step);
        step
      else
        var rest := Process(names[1..], exchange, next + 1);
        if rest.Finished? then Finished(step.reports + rest.reports)
        else
          StepsTail(names, exchange, next);
          FirstHaltShifts(Steps(names, exchange, next), rest);
          rest
  }

  /** What handling each deployment on its own produces, the `j`-th against `exchange(next + j)`. */
  function Steps(names: seq<string>, exchange: nat -> Exchange, next: nat): (steps: seq<Iteration>)
    ensures |steps| == |names|
    ensures forall j :: 0 <= j < |names| ==> steps[j] == HandleDeployment(names[j], exchange(next + j))
  {
    seq(|names|, j requires 0 <= j < |names| => HandleDeployment(names[j], exchange(next + j)))
  }

  /** The steps of the remaining deployments are the remaining steps. */
  lemma StepsTail(names: seq<string>, exchange: nat -> Exchange, next: nat)
    requires |names| > 0
    ensures Steps(names[1..], exchange, next + 1) == Steps(names, exchange, next)[1..]
  {
    var tail := Steps(names[1..], exchange, next + 1);
    var all := Steps(names, exchange, next);
    forall j | 0 <= j < |tail|
      ensures tail[j] == all[j + 1]
    {
      assert names[1..][j] == names[j + 1];
      assert next + 1 + j == next + (j + 1);
    }
  }

  /** Step `k` did not finish and every earlier step did: `it` is the first step that stopped the pass. */
  predicate HaltsAt(steps: seq<Iteration>, k: nat, it: Iteration)
  {
    && k < |steps|
    && (forall j :: 0 <= j < k ==> steps[j].Finished?)
    && !it.Finished?
    && it == steps[k]
  }

  /** Where the steps after the first halt, the whole sequence halts one position later. */
  lemma FirstHaltShifts(steps: seq<Iteration>, it: Iteration)
    requires |steps| > 0 && steps[0].Finished?
    requires exists k :: HaltsAt(steps[1..], k, it)
    ensures exists k :: HaltsAt(steps, k, it)
  {
    var k: nat :| HaltsAt(steps[1..], k, it);
    assert HaltsAt(steps, k + 1, it);
  }

  /**
   One full pass. A non-200 listing is fatal. A finished pass has handled
   exactly the listed deployments other than `self`, in listing order, and
   resubmitted a deployment exactly when its decision changed something.
   */
  function RunIteration(listing: Response<seq<DeploymentRecord>>, self: string, exchange: nat -> Exchange)
    : (it: Iteration)
    ensures listing.status != StatusOK ==> it == Failed(UnexpectedStatus(StatusOK, listing.status))
    ensures listing.status == StatusOK && !it.Finished? ==>
      exists k :: HaltsAt(Steps(Without(Names(listing.payload), self), exchange, 0), k, it)
    ensures it.Finished? ==>
      var names := Without(Names(listing.payload), self);
      && listing.status == StatusOK
      && |it.reports| == |names|
      && (forall k :: 0 <= k < |names| ==> it.reports[k].deployment == names[k])
      && (forall k :: 0 <= k < |names| ==> it.reports[k].deployment != self)
      && (forall k :: 0 <= k < |names| ==>
            var d := Decide(exchange(k).download.payload, exchange(k).signal);
            && it.reports[k].manifest == d.manifest
            && (it.reports[k].submission.SubmittedAs? <==> d.scaled))
    ensures it.Finished? ==>
      var steps := Steps(Without(Names(listing.payload), self), exchange, 0);
      && |it.reports| == |steps|
      && forall k :: 0 <= k < |steps| ==> steps[k].Finished? && it.reports[k] == steps[k].reports[0]
  {
    match ListDeployments(listing, self)
    case Fatal(failure) => Failed(failure)
    case Ok(names) =>
      var it := Process(names, exchange, 0);
      assert it.Finished? ==> forall k :: 0 <= k < |names| ==>
        HandleDeployment(names[k], exchange(0 + k)).Finished?;
      it
  }

  /** A pass over a 200 listing finishes when handling every listed deployment other than `self` finishes. */
  lemma PassFinishesWhenEveryStepDoes(listing: Response<seq<DeploymentRecord>>, self: string, exchange: nat -> Exchange)
    requires listing.status == StatusOK
    requires forall j :: 0 <= j < |Without(Names(listing.payload), self)| ==>
      Steps(Without(Names(listing.payload), self), exchange, 0)[j].Finished?
    ensures RunIteration(listing, self, exchange).Finished?
  {
  }

  /** The manifest downloads fine and every group in it is at the ceiling. */
  predicate Pinned(ex: Exchange)
  {
    ex.download.status == StatusOK && AllPinned(ex.download.payload)
  }

  /** Deployments whose groups are all at the ceiling are all handled and none is resubmitted. */
  lemma {:induction false} PinnedFleetIsQuiet(names: seq<string>, exchange: nat -> Exchange, next: nat)
    requires forall j :: next <= j < next + |names| ==> Pinned(exchange(j))
    ensures Process(names, exchange, next).Finished?
    ensures forall k :: 0 <= k < |names| ==>
      Process(names, exchange, next).reports[k] ==
        Report(names[k], exchange(next + k).download.payload, NotSubmitted)
    decreases |names|
  {
    if |names| > 0 {
      var ex := exchange(next);
      assert Pinned(ex);
      PinnedManifestUntouched(ex.download.payload, ex.signal);
      assert HandleDeployment(names[0], ex) == Finished([Report(names[0], ex.download.payload, NotSubmitted)]);
      PinnedFleetIsQuiet(names[1..], exchange, next + 1);
      var rest := Process(names[1..], exchange, next + 1);
      assert Process(names, exchange, next).reports == [Report(names[0], ex.download.payload, NotSubmitted)] + rest.reports;
      forall k | 1 <= k < |names|
        ensures Process(names, exchange, next).reports[k] ==
          Report(names[k], exchange(next + k).download.payload, NotSubmitted)
      {
        assert rest.reports[k - 1] == Report(names[1..][k - 1], exchange(next + 1 + (k - 1)).download.payload, NotSubmitted);
        assert next + 1 + (k - 1) == next + k;
      }
    }
  }

  /** The answers of the scenario below: a download of `m`, positive draws, a redirect to task 7, then `queued`, `done`. */
  function ScenarioExchange(m: Manifest): Exchange
  {
    Exchange(Response(StatusOK, m), _ => true, Response(StatusFound, "/tasks/7"),
             [Response(StatusOK, "queued"), Response(StatusOK, StateDone)])
  }

  /** Handling `web` in the scenario: its one group of 2 is doubled, task 7 is followed to `done`. */
  lemma ScenarioDeploymentScaled(m: Manifest)
    requires |m.instanceGroups| == 1 && m.instanceGroups[0].instances == 2
    ensures Decide(m, ScenarioExchange(m).signal).manifest.instanceGroups[0].instances == 4
    ensures HandleDeployment("web", ScenarioExchange(m))
      == Finished([Report("web", Decide(m, ScenarioExchange(m).signal).manifest, SubmittedAs("7"))])
  {
    var ex := ScenarioExchange(m);
    var d := Decide(m, ex.signal);
    assert ex.signal(0);
    assert d.scaled;
    LastPartAfterLastSeparator("/tasks/7", '/', 7);
    FollowStopsAtFirstTerminal("7", ex.polls, 1);
    assert Deploy(ex.submit, ex.polls) == Ok(TaskRun("7", Follow(2, Succeeded)));
  }

  /**
   The scenario of one deployment `web` next to the daemon's own `scaler`,
   with one group of 2 instances: a positive draw scales it to 4, the
   manifest is posted, the director redirects to task 7, and the pass ends
   once that task is `done`.
   */
  lemma ScaleOneDeployment(m: Manifest)
    requires |m.instanceGroups| == 1 && m.instanceGroups[0].instances == 2
    ensures
      var it := RunIteration(Response(StatusOK, [DeploymentRecord("scaler"), DeploymentRecord("web")]),
                             "scaler", _ => ScenarioExchange(m));
      && it.Finished?
      && |it.reports| == 1
      && it.reports[0].deployment == "web"
      && it.reports[0].manifest.instanceGroups[0].instances == 4
      && it.reports[0].submission == SubmittedAs("7")
  {
    var ex := ScenarioExchange(m);
    ScenarioDeploymentScaled(m);
    var report := Report("web", Decide(m, ex.signal).manifest, SubmittedAs("7"));
    var listing := Response(StatusOK, [DeploymentRecord("scaler"), DeploymentRecord("web")]);
    assert Names(listing.payload) == ["scaler", "web"];
    assert Without(["scaler", "web"], "scaler") == ["web"] by {
      assert ["scaler", "web"][1..] == ["web"];
      assert ["web"][1..] == [];
    }
    assert ListDeployments(listing, "scaler") == Ok(["web"]);
    assert Process(["web"], _ => ex, 0) == Finished([report]) by {
      assert ["web"][1..] == [];
    }
  }
}
