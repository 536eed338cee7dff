/** What the API server and etcd hold for one cluster, and the moves of the environment. */

module Objects {
  import opened Wrappers
  import opened Api
  import opened Etcd
  import opened Webhook

  /** A pod with its one container. containerStatuses is what the kubelet reported so far. */
  datatype Pod = Pod(version: string, state: InitialState, restore: bool, created: Time,
                     containers: nat, containerStatuses: seq<bool>, terminating: bool)
  {
    predicate Ready() {
      |containerStatuses| == containers && forall k :: 0 <= k < |containerStatuses| ==> containerStatuses[k]
    }
  }

  function GetPod(m: Member, now: Time): Pod {
    Pod(m.spec.version, m.GetState(), m.HasRestore(), now, 1, [], false)
  }

  /** recreated and seenReady record history: whether the claim was created by a reconcile of a
      Recreating member, and whether a pod on it has ever been ready. No code reads them. */
  datatype Pvc = Pvc(terminating: bool, recreated: bool, seenReady: bool)

  /** A member with the objects that carry its name. A certificate is given by its NotBefore,
      which is zero until it is issued. */
  datatype Slot = Slot(member: Member, pod: Option<Pod>, pvc: Option<Pvc>,
                       clientCert: Option<Time>, peerCert: Option<Time>)
  {
    predicate Issued() {
      clientCert.Some? && clientCert.value != ZERO_TIME && peerCert.Some? && peerCert.value != ZERO_TIME
    }

    predicate PodReady() {
      pod.Some? && pod.value.Ready()
    }

    /** A volume on which a pod has been ready. */
    predicate UsedVolume() {
      pvc.Some? && pvc.value.seenReady
    }

    /** A volume made by a repair on which no pod has been ready yet. */
    predicate FreshVolume() {
      pvc.Some? && pvc.value.recreated && !pvc.value.seenReady
    }
  }

  function NewSlot(m: Member): Slot {
    Slot(m, None, None, None, None)
  }

  /** Members are never deleted and are created in the order of their ordinals,
      so the slot of member k is slots[k]. */
  datatype World = World(cluster: Cluster, slots: seq<Slot>, etcd: Membership, now: Time)

  function Members(slots: seq<Slot>): (ms: seq<Member>)
    ensures |ms| == |slots|
  {
    seq(|slots|, k requires 0 <= k < |slots| => slots[k].member)
  }

  // ----- writes: they fail on a stale resourceVersion, and change nothing when nothing differs

  function PutSpec(stored: Member, spec: MemberSpec): Member {
    if stored.spec == spec then stored else stored.(spec := spec, resourceVersion := stored.resourceVersion + 1)
  }

  function PutStatus(stored: Member, status: MemberStatus): Member {
    if stored.status == status then stored else stored.(status := status, resourceVersion := stored.resourceVersion + 1)
  }

  function PutClusterStatus(stored: Cluster, c: Cluster): Cluster {
    if stored.resourceVersion != c.resourceVersion || stored.status == c.status then stored
    else stored.(status := c.status, resourceVersion := stored.resourceVersion + 1)
  }

  // ----- environment

  datatype EnvStep =
    | Tick(seconds: nat)
    | PodReports(i: nat, containerStatuses: seq<bool>)
    | PodGone(i: nat)
    | PvcGone(i: nat)
    | CertIssued(i: nat, peer: bool)
    | EtcdStarted(i: nat)
    | UserEdit(spec: ClusterSpec)

  function WithReports(s: Slot, containerStatuses: seq<bool>): Slot {
    if s.pod.None? then s else
      var pod := s.pod.value.(containerStatuses := containerStatuses);
      s.(pod := Some(pod),
         pvc := if s.pvc.Some? && pod.Ready() then Some(s.pvc.value.(seenReady := true)) else s.pvc)
  }

  function WithCert(s: Slot, peer: bool, now: Time): Slot {
    if peer then
      if s.peerCert.Some? then s.(peerCert := Some(now)) else s
    else
      if s.clientCert.Some? then s.(clientCert := Some(now)) else s
  }

  /** A pod may vanish at any time; a volume only after its deletion was asked for. */
  function EnvSlot(s: Slot, e: EnvStep, now: Time): Slot {
    match e
    case PodReports(_, containerStatuses) => WithReports(s, containerStatuses)
    case PodGone(_) => s.(pod := None)
    case PvcGone(_) => if s.pvc.Some? && s.pvc.value.terminating then s.(pvc := None) else s
    case CertIssued(_, peer) => WithCert(s, peer, now)
    case _ => s
  }

  /** A process publishes its name only from a pod. */
  function Env(w: World, e: EnvStep): World {
    match e
    case Tick(seconds) => w.(now := w.now + seconds)
    case EtcdStarted(i) =>
      if i < |w.slots| && w.slots[i].pod.Some? then w.(etcd := w.etcd.(entries := Publish(w.etcd.entries, i))) else w
    case UserEdit(spec) =>
      var edited := w.cluster.(spec := spec, resourceVersion := w.cluster.resourceVersion + 1);
      if ValidateUpdate(w.cluster, edited) == Admitted then w.(cluster := edited) else w
    case _ =>
      if e.i < |w.slots| then w.(slots := w.slots[e.i := EnvSlot(w.slots[e.i], e, w.now)]) else w
  }

  /** A cluster that has just been admitted. */
  predicate Fresh(w: World) {
    ValidateCreate(w.cluster) == Admitted && w.cluster.status == ClusterStatus(NoClusterPhase, "", false)
    && w.slots == [] && w.etcd == Bootstrap(Count(w.cluster.spec.size)) && w.now > ZERO_TIME
  }
}
