/**
 The read side of the director client: every read is a GET whose answer must
 carry status 200, and whose decoded body is then used. Decoding JSON or YAML
 is a library call outside this model, so a response arrives here with its
 payload already decoded.
 */
module Director {
  import opened Outcomes

  const StatusOK: int := 200
  const StatusFound: int := 302

  /**
   What the daemon reads from one HTTP exchange: the status code and the part
   of the answer it goes on to use (a decoded body, or for a submission the
   `Location` header).
   */
  datatype Response<+T> = Response(status: int, payload: T)

  /** The status gate shared by every call: anything but `code` is fatal. */
  function Expect<T>(resp: Response<T>, code: int): (r: Result<T>)
    ensures r.Ok? <==> resp.status == code
    ensures r.Ok? ==> r.value == resp.payload
    ensures r.Fatal? ==> r.failure == UnexpectedStatus(code, resp.status)
  {
    if resp.status == code then Ok(resp.payload)
    else Fatal(UnexpectedStatus(code, resp.status))
  }

  /** One element of the JSON array `GET /deployments` answers with. */
  datatype DeploymentRecord = DeploymentRecord(name: string)

  /** The names of the listed deployments, in listing order. */
  function Names(deployments: seq<DeploymentRecord>): (names: seq<string>)
    ensures |names| == |deployments|
    ensures forall i :: 0 <= i < |deployments| ==> names[i] == deployments[i].name
  {
    seq(|deployments|, i requires 0 <= i < |deployments| => deployments[i].name)
  }

  /**
   Reference definition of the self-exclusion filter: `names` in their
   order with every occurrence of `self` dropped.
   */
  function Without(names: seq<string>, self: string): (r: seq<string>)
    ensures self !in r
    ensures |r| <= |names|
    ensures forall x :: x != self ==> multiset(r)[x] == multiset(names)[x]
    decreases |names|
  {
    if |names| == 0 then []
    else
      var rest := Without(names[1..], self);
      assert names == [names[0]] + names[1..];
      if names[0] == self then rest else [names[0]] + rest
  }

  /** The filter works piecewise, so it keeps the relative order of the names it keeps. */
  lemma {:induction false} WithoutAppend(a: seq<string>, b: seq<string>, self: string)
    ensures Without(a + b, self) == Without(a, self) + Without(b, self)
    decreases |a|
  {
    if |a| > 0 {
      assert (a + b)[1..] == a[1..] + b;
      WithoutAppend(a[1..], b, self);
    } else {
      assert a + b == b;
    }
  }

  /** A listing without `self` passes through untouched. */
  lemma {:induction false} WithoutNothingToDrop(names: seq<string>, self: string)
    requires self !in names
    ensures Without(names, self) == names
    decreases |names|
  {
    if |names| > 0 {
      WithoutNothingToDrop(names[1..], self);
      assert names == [names[0]] + names[1..];
    }
  }

  /** Filtering twice is filtering once. */
  lemma WithoutIdempotent(names: seq<string>, self: string)
    ensures Without(Without(names, self), self) == Without(names, self)
  {
    WithoutNothingToDrop(Without(names, self), self);
  }

  /**
   The loop in `ListDeployments`: walk the decoded listing and append every
   name that is not this daemon's own deployment.
   */
  method ExcludeSelf(deployments: seq<DeploymentRecord>, self: string) returns (names: seq<string>)
    ensures names == Without(Names(deployments), self)
    ensures self !in names
  {
    names := [];
    var i := 0;
    while i < |deployments|
      invariant 0 <= i <= |deployments|
      invariant names == Without(Names(deployments[..i]), self)
    {
      assert Names(deployments[..i + 1]) == Names(deployments[..i]) + [deployments[i].name];
      WithoutAppend(Names(deployments[..i]), [deployments[i].name], self);
      if deployments[i].name != self {
        names := names + [deployments[i].name];
      }
      i := i + 1;
    }
    assert deployments[..i] == deployments;
  }

  /**
   `GET /deployments`: fatal unless the status is 200; otherwise the listed
   names minus `self`, in listing order, duplicates kept.
   */
  function ListDeployments(resp: Response<seq<DeploymentRecord>>, self: string): (r: Result<seq<string>>)
    ensures r.Ok? <==> resp.status == StatusOK
    ensures r.Fatal? ==> r.failure == UnexpectedStatus(StatusOK, resp.status)
    ensures r.Ok? ==> self !in r.value
    ensures r.Ok? ==> r.value == Without(Names(resp.payload), self)
  {
    var listing :- Expect(resp, StatusOK);
    Ok(Without(Names(listing), self))
  }

  /** `GET /deployments/{name}`: fatal unless 200, otherwise the embedded manifest. */
  function DownloadManifest<M>(resp: Response<M>): (r: Result<M>)
    ensures r.Ok? <==> resp.status == StatusOK
    ensures r.Ok? ==> r.value == resp.payload
    ensures r.Fatal? ==> r.failure == UnexpectedStatus(StatusOK, resp.status)
  {
    Expect(resp, StatusOK)
  }

  /** `GET /tasks/{id}`: fatal unless 200, otherwise the task's `state` field. */
  function GetTaskState(resp: Response<string>): (r: Result<string>)
    ensures r.Ok? <==> resp.status == StatusOK
    ensures r.Ok? ==> r.value == resp.payload
    ensures r.Fatal? ==> r.failure == UnexpectedStatus(StatusOK, resp.status)
  {
    Expect(resp, StatusOK)
  }
}
