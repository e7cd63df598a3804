/**
 The record shape the daemon decodes a deployment manifest into. Only the
 fields the Go struct names are kept; everything else in the director's
 manifest is dropped on decoding, which is why no round trip through text is
 claimed here.
 */
module Manifests {

  const MinInt64: int := -0x8000_0000_0000_0000
  const MaxInt64: int := 0x7fff_ffff_ffff_ffff

  /** Go's `int` on a 64-bit platform. */
  type Int64 = x: int | MinInt64 <= x <= MaxInt64

  /** Two's-complement truncation of an unbounded integer to 64 bits. */
  function Wrap64(x: int): (r: Int64)
    ensures MinInt64 <= x <= MaxInt64 ==> r == x
    ensures (r - x) % 0x1_0000_0000_0000_0000 == 0
  {
    (x - MinInt64) % 0x1_0000_0000_0000_0000 + MinInt64
  }

  /**
   The untyped content of the `properties` block: a YAML tree whose shape
   this system never inspects.
   */
  datatype Node =
    | Scalar(text: string)
    | Sequence(items: seq<Node>)
    | Mapping(entries: seq<(Node, Node)>)

  datatype Release = Release(name: string, version: string)

  datatype Stemcell = Stemcell(alias: string, os: string, version: string)

  datatype Job = Job(name: string, release: string)

  datatype Network = Network(name: string)

  /** One horizontally scalable unit; `instances` is the only field the loop writes. */
  datatype InstanceGroup = InstanceGroup(
    name: string,
    instances: Int64,
    jobs: seq<Job>,
    vmType: string,
    stemcell: string,
    networks: seq<Network>)

  datatype UpdatePolicy = UpdatePolicy(
    canaries: Int64,
    canaryWatchTime: string,
    updateWatchTime: string,
    maxInFlight: Int64)

  datatype Manifest = Manifest(
    name: string,
    directorUuid: string,
    releases: seq<Release>,
    stemcells: seq<Stemcell>,
    instanceGroups: seq<InstanceGroup>,
    properties: Node,
    update: UpdatePolicy)

  /** `m2` differs from `m1` at most in the instance counts of its groups, which stay in place. */
  predicate SameButCounts(m1: Manifest, m2: Manifest)
  {
    && m2.(instanceGroups := m1.instanceGroups) == m1
    && |m2.instanceGroups| == |m1.instanceGroups|
    && forall i :: 0 <= i < |m1.instanceGroups| ==>
         m2.instanceGroups[i].(instances := m1.instanceGroups[i].instances) == m1.instanceGroups[i]
  }
}
