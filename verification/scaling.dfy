/**
 The scaling decision of the control loop. For each instance group in
 manifest order: a group at or above the ceiling is skipped for good;
 otherwise a scale-up signal (a random draw in the daemon, an oracle here)
 doubles its count in place and marks the manifest for resubmission.
 */
module Scaling {
  import opened Manifests

  /** The hard-coded `maxInstanceCount`. */
  const MaxInstanceCount: int := 4

  /** Go's `2 * instanceGroup.Instances` on a 64-bit `int`. */
  function Double(n: Int64): (r: Int64)
    ensures MinInt64 / 2 <= n <= MaxInt64 / 2 ==> r == 2 * n
    ensures (r - 2 * n) % 0x1_0000_0000_0000_0000 == 0
  {
    Wrap64(2 * n)
  }

  /**
   Every count below -2^62 overflows when doubled; the most negative one
   wraps all the way to zero, the one just below -2^62 to near the top.
   */
  lemma DoubleWrapsAtMinimum()
    ensures Double(MinInt64) == 0
    ensures Double(MinInt64 / 2 - 1) == MaxInt64 - 1
  {
  }

  predicate BelowCeiling(g: InstanceGroup)
  {
    g.instances < MaxInstanceCount
  }

  /** The group is doubled this round: it is below the ceiling and its signal says scale up. */
  predicate ScalesUp(g: InstanceGroup, signal: bool)
  {
    BelowCeiling(g) && signal
  }

  function ScaleGroup(g: InstanceGroup, signal: bool): InstanceGroup
  {
    if ScalesUp(g, signal) then g.(instances := Double(g.instances)) else g
  }

  /** The manifest after the decision, and whether it must be resubmitted. */
  datatype Decision = Decision(manifest: Manifest, scaled: bool)

  /**
   One decision over a manifest; `signal(i)` stands for the draw made for the
   `i`-th instance group. Only instance counts change; a group at or above
   the ceiling keeps its count whatever the signal; a group below it doubles
   exactly on a positive signal and is untouched on a negative one; and the
   manifest is marked for resubmission exactly when some group below the
   ceiling got a positive signal.
   */
  function Decide(m: Manifest, signal: nat -> bool): (d: Decision)
    ensures SameButCounts(m, d.manifest)
    ensures forall i :: 0 <= i < |m.instanceGroups| ==>
      var before := m.instanceGroups[i].instances;
      var after := d.manifest.instanceGroups[i].instances;
      && (before >= MaxInstanceCount ==> after == before)
      && (before < MaxInstanceCount && !signal(i) ==> after == before)
      && (before < MaxInstanceCount && signal(i) && before >= MinInt64 / 2 ==> after == 2 * before)
      && (before < MaxInstanceCount && signal(i) ==> after == Double(before))
    ensures d.scaled <==>
      exists i :: 0 <= i < |m.instanceGroups| && m.instanceGroups[i].instances < MaxInstanceCount && signal(i)
  {
    var groups := m.instanceGroups;
    var scaled := seq(|groups|, i requires 0 <= i < |groups| => ScaleGroup(groups[i], signal(i)));
    Decision(
      m.(instanceGroups := scaled),
      exists i :: 0 <= i < |groups| && ScalesUp(groups[i], signal(i)))
  }

  /**
   The loop of `main.go`, group by group: the count is doubled in place and
   the `scaledDeployment` flag raised; the result is the reference decision.
   */
  method ScaleInstanceGroups(m: Manifest, signal: nat -> bool) returns (scaled: Manifest, submit: bool)
    ensures Decision(scaled, submit) == Decide(m, signal)
  {
    var groups := m.instanceGroups;
    submit := false;
    var i := 0;
    while i < |groups|
      invariant 0 <= i <= |groups|
      invariant |groups| == |m.instanceGroups|
      invariant forall j :: 0 <= j < i ==> groups[j] == ScaleGroup(m.instanceGroups[j], signal(j))
      invariant forall j :: i <= j < |groups| ==> groups[j] == m.instanceGroups[j]
      invariant submit <==> exists j :: 0 <= j < i && ScalesUp(m.instanceGroups[j], signal(j))
    {
      if groups[i].instances >= MaxInstanceCount {
        i := i + 1;
        continue;
      }
      if signal(i) {
        submit := true;
        groups := groups[i := groups[i].(instances := Double(groups[i].instances))];
      }
      i := i + 1;
    }
    scaled := m.(instanceGroups := groups);
    assert scaled.instanceGroups == Decide(m, signal).manifest.instanceGroups;
  }

  /** The ceiling is a gate, not a clamp: 3 doubles to 6, and 0 stays 0 yet still triggers a resubmission. */
  lemma GateNotClamp(m: Manifest)
    requires |m.instanceGroups| == 2
    requires m.instanceGroups[0].instances == 3
    requires m.instanceGroups[1].instances == 0
    ensures Decide(m, _ => true).manifest.instanceGroups[0].instances == 6
    ensures Decide(m, _ => true).manifest.instanceGroups[1].instances == 0
    ensures Decide(m, _ => true).scaled
    ensures Decide(m, i => i == 1).manifest == m
    ensures Decide(m, i => i == 1).scaled
  {
    var d := Decide(m, i => i == 1);
    assert d.manifest.instanceGroups == m.instanceGroups;
  }

  /** Every instance group is at or above the ceiling. */
  predicate AllPinned(m: Manifest)
  {
    forall i :: 0 <= i < |m.instanceGroups| ==> m.instanceGroups[i].instances >= MaxInstanceCount
  }

  /** A manifest whose groups are all at the ceiling is left alone and not resubmitted, whatever the signals. */
  lemma PinnedManifestUntouched(m: Manifest, signal: nat -> bool)
    requires AllPinned(m)
    ensures Decide(m, signal) == Decision(m, false)
  {
    var d := Decide(m, signal);
    forall i | 0 <= i < |m.instanceGroups|
      ensures d.manifest.instanceGroups[i] == m.instanceGroups[i]
    {
      assert d.manifest.instanceGroups[i].(instances := m.instanceGroups[i].instances) == m.instanceGroups[i];
    }
    assert d.manifest.instanceGroups == m.instanceGroups;
  }

  /**
   Two rounds over one group of 2 below a ceiling of 4: a positive signal
   doubles it to 4 and resubmits; in the next round the group is pinned and
   nothing is resubmitted, whatever the signal.
   */
  lemma ScaleThenPinned(m: Manifest, first: nat -> bool, second: nat -> bool)
    requires |m.instanceGroups| == 1 && m.instanceGroups[0].instances == 2
    requires first(0)
    ensures Decide(m, first).scaled
    ensures Decide(m, first).manifest.instanceGroups[0].instances == 4
    ensures Decide(Decide(m, first).manifest, second) == Decision(Decide(m, first).manifest, false)
  {
    PinnedManifestUntouched(Decide(m, first).manifest, second);
  }

  /** The manifest after `rounds` successive decisions, one signal oracle per round. */
  function Rounds(m: Manifest, rounds: seq<nat -> bool>): Manifest
    decreases |rounds|
  {
    if |rounds| == 0 then m
    else Rounds(Decide(m, rounds[0]).manifest, rounds[1..])
  }

  /** Any number of rounds changes nothing but instance counts. */
  lemma {:induction false} RoundsOnlyChangeCounts(m: Manifest, rounds: seq<nat -> bool>)
    ensures SameButCounts(m, Rounds(m, rounds))
    decreases |rounds|
  {
    if |rounds| > 0 {
      var next := Decide(m, rounds[0]).manifest;
      RoundsOnlyChangeCounts(next, rounds[1..]);
      var last := Rounds(next, rounds[1..]);
      assert last.(instanceGroups := m.instanceGroups) == m by {
        assert last.(instanceGroups := next.instanceGroups) == next;
      }
      forall i | 0 <= i < |m.instanceGroups|
        ensures last.instanceGroups[i].(instances := m.instanceGroups[i].instances) == m.instanceGroups[i]
      {
        assert last.instanceGroups[i].(instances := next.instanceGroups[i].instances) == next.instanceGroups[i];
        assert next.instanceGroups[i].(instances := m.instanceGroups[i].instances) == m.instanceGroups[i];
      }
    }
  }

  /** Once a group reaches the ceiling its count never changes again, in any later round. */
  lemma {:induction false} PinnedForever(m: Manifest, rounds: seq<nat -> bool>, i: nat)
    requires i < |m.instanceGroups|
    requires m.instanceGroups[i].instances >= MaxInstanceCount
    ensures i < |Rounds(m, rounds).instanceGroups|
    ensures Rounds(m, rounds).instanceGroups[i].instances == m.instanceGroups[i].instances
    decreases |rounds|
  {
    if |rounds| > 0 {
      PinnedForever(Decide(m, rounds[0]).manifest, rounds[1..], i);
    }
  }

  /** Every count lies between 0 and twice the largest count below the ceiling. */
  predicate Bounded(m: Manifest)
  {
    forall i :: 0 <= i < |m.instanceGroups| ==>
      0 <= m.instanceGroups[i].instances <= 2 * (MaxInstanceCount - 1)
  }

  /** Counts between 0 and twice the largest count below the ceiling stay there, in every round. */
  lemma {:induction false} RoundsStayBounded(m: Manifest, rounds: seq<nat -> bool>)
    requires Bounded(m)
    ensures Bounded(Rounds(m, rounds))
    decreases |rounds|
  {
    if |rounds| > 0 {
      var next := Decide(m, rounds[0]).manifest;
      assert Bounded(next);
      RoundsStayBounded(next, rounds[1..]);
    }
  }
}
