/** The resources of the operator's API group and the pure methods on them.

    Values of these types are what the API server stores. The working copies that a
    reconciler changes in place are the classes MemberObject and ClusterObject. */

module Wrappers {
  datatype Option<+T> = None | Some(value: T)
}

module Api {

  /** Seconds since Go's zero time. The value 0 is the zero time itself. */
  type Time = int

  const ZERO_TIME: Time := 0

  datatype ClusterPhase = NoClusterPhase | ClusterCreating | ClusterRunning | ClusterUpdating
                        | ClusterMinorFailure | ClusterFailed

  datatype ClusterSpec = ClusterSpec(version: string, size: int, backup: string,
                                     backupCreationPeriod: int, backupRetentionPeriod: int)

  datatype ClusterStatus = ClusterStatus(phase: ClusterPhase, version: string, certificateExpires: bool)

  datatype Cluster = Cluster(name: string, namespace: string, uid: string, resourceVersion: nat,
                             spec: ClusterSpec, status: ClusterStatus)
  {
    predicate ShouldUpdate() {
      status.phase == ClusterRunning && (status.version != spec.version || status.certificateExpires)
    }
  }

  /** How often the size loops of the controllers run. */
  function Count(size: int): (n: nat) {
    if size < 0 then 0 else size
  }

  /** Phase "" is NoPhase. Creating exists in the API but no code assigns it. */
  datatype MemberPhase = NoPhase | Creating | Recreating | Running | Updating | Failed

  datatype MemberSpec = MemberSpec(version: string, backup: string, clusterName: string, clusterToken: string,
                                   members: seq<string>, broken: bool, certificateUpdate: bool)

  datatype MemberStatus = MemberStatus(version: string, phase: MemberPhase, failedTime: Time,
                                       certificateExpires: bool)

  /** Value of --initial-cluster-state: "new" or "existing". */
  datatype InitialState = New | Existing

  datatype Member = Member(name: string, namespace: string, resourceVersion: nat,
                           spec: MemberSpec, status: MemberStatus)
  {
    predicate IsCreating() {
      status.phase == Creating || status.phase == Recreating || status.phase == NoPhase
    }

    predicate ShouldUpdate() {
      status.phase == Running
      && (status.version != spec.version || (spec.certificateUpdate && status.certificateExpires))
    }

    function GetState(): InitialState {
      if status.phase == Recreating then Existing else New
    }

    /** Whether the pod gets the etcd-restore init container. */
    predicate HasRestore() {
      !(spec.backup == "" || status.phase == Recreating)
    }
  }

  const NO_STATUS := MemberStatus("", NoPhase, ZERO_TIME, false)

  /** Working copy of a Member, changed in place by the reconcilers. */
  class MemberObject {
    const name: string
    const namespace: string
    var resourceVersion: nat
    var spec: MemberSpec
    var status: MemberStatus

    constructor (m: Member)
      ensures Value() == m
    {
      name, namespace := m.name, m.namespace;
      resourceVersion, spec, status := m.resourceVersion, m.spec, m.status;
    }

    function Value(): Member
      reads this
    {
      Member(name, namespace, resourceVersion, spec, status)
    }

    /** The failure time is the time of the entry to Failed: a second call changes nothing. */
    method SetFailed(now: Time)
      modifies this`status
      ensures Value() == AsFailed(old(Value()), now)
      ensures if old(status.phase) == Failed then status == old(status)
              else status == MemberStatus(old(status.version), Failed, now, old(status.certificateExpires))
    {
      if status.phase == Failed {
        return;
      }
      status := status.(failedTime := now);
      status := status.(phase := Failed);
    }
  }

  function AsFailed(m: Member, now: Time): Member {
    if m.status.phase == Failed then m else m.(status := m.status.(failedTime := now, phase := Failed))
  }

  /** Working copy of a Cluster. */
  class ClusterObject {
    const name: string
    const namespace: string
    const uid: string
    const spec: ClusterSpec
    var resourceVersion: nat
    var status: ClusterStatus

    constructor (c: Cluster)
      ensures Value() == c
    {
      name, namespace, uid, spec := c.name, c.namespace, c.uid, c.spec;
      resourceVersion, status := c.resourceVersion, c.status;
    }

    function Value(): Cluster
      reads this
    {
      Cluster(name, namespace, uid, resourceVersion, spec, status)
    }
  }
}
