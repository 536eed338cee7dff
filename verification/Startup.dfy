/** How a cluster comes up: acts that take every newly admitted cluster to one whose members all serve. */

module Startup {
  import opened Wrappers
  import opened Api
  import opened Etcd
  import opened Objects
  import opened Topology
  import opened MemberController
  import opened ClusterController
  import opened AtomicRuns

  /** The world in which member k and its objects are s. */
  function With(w: World, k: nat, s: Slot): World
    requires k < |w.slots|
  {
    w.(slots := w.slots[k := s])
  }

  lemma MemberSets(w: World, k: nat, s: Slot, r: Slot)
    requires k < |w.slots| && Reconcile(k, s, w.etcd, w.now) == (r, w.etcd)
    ensures ApplyAct(With(w, k, s), MemberAct(k)) == With(w, k, r)
  {
    assert w.slots[k := s][k := r] == w.slots[k := r];
  }

  lemma EnvSets(w: World, e: EnvStep, s: Slot)
    requires !e.Tick? && !e.EtcdStarted? && !e.UserEdit? && e.i < |w.slots|
    ensures ApplyAct(With(w, e.i, s), EnvAct(e)) == With(w, e.i, EnvSlot(s, e, w.now))
  {
    assert w.slots[e.i := s][e.i := EnvSlot(s, e, w.now)] == w.slots[e.i := EnvSlot(s, e, w.now)];
  }

  lemma TwoActs(w: World, a: Act, b: Act)
    ensures RunActs(w, [a, b]) == ApplyAct(ApplyAct(w, a), b)
  {
    assert [a, b] == [a] + [b];
    OneAct(w, a);
    LastAct(w, [a], b);
  }

  lemma FourActs(w: World, a: Act, b: Act, c: Act, d: Act)
    ensures RunActs(w, [a, b, c, d]) == ApplyAct(ApplyAct(ApplyAct(ApplyAct(w, a), b), c), d)
  {
    assert [a, b, c, d] == [a, b] + [c, d];
    ActsAppend(w, [a, b], [c, d]);
    TwoActs(w, a, b);
    TwoActs(RunActs(w, [a, b]), c, d);
  }

  // ----- one member

  function Certify(k: nat): seq<Act> {
    [MemberAct(k), EnvAct(CertIssued(k, false)), EnvAct(CertIssued(k, true)), MemberAct(k)]
  }

  function Launch(k: nat): seq<Act> {
    [MemberAct(k), EnvAct(PodReports(k, [true]))]
  }

  function MemberUp(k: nat): seq<Act> {
    Certify(k) + (Launch(k) + [MemberAct(k)])
  }

  function UpMember(m: Member): Member {
    m.(status := MemberStatus(m.spec.version, Running, ZERO_TIME, false), resourceVersion := m.resourceVersion + 1)
  }

  /** A member with its certificates and its volume. */
  function ClaimedSlot(m: Member, now: Time): Slot {
    Slot(m, None, Some(Pvc(false, false, false)), Some(now), Some(now))
  }

  /** A member that serves, with everything made at the given time. */
  function UpSlot(m: Member, now: Time): Slot {
    Slot(UpMember(m), Some(Pod(m.spec.version, New, m.spec.backup != "", now, 1, [true], false)),
         Some(Pvc(false, false, true)), Some(now), Some(now))
  }

  predicate NewMember(m: Member) {
    m.status == NO_STATUS && !m.spec.broken && !m.spec.certificateUpdate
  }

  /** The stages of a new member. */
  lemma NewSlotStages(k: nat, m: Member, etcd: Membership, now: Time)
    requires NewMember(m) && now > ZERO_TIME
    ensures Reconcile(k, NewSlot(m), etcd, now) == (Slot(m, None, None, Some(ZERO_TIME), Some(ZERO_TIME)), etcd)
    ensures Reconcile(k, Slot(m, None, None, Some(now), Some(now)), etcd, now) == (ClaimedSlot(m, now), etcd)
    ensures Reconcile(k, ClaimedSlot(m, now), etcd, now)
            == (ClaimedSlot(m, now).(pod := Some(GetPod(m, now))), etcd)
  {
  }

  lemma UpStage(k: nat, m: Member, etcd: Membership, now: Time)
    requires NewMember(m) && now > ZERO_TIME
    ensures var started := ClaimedSlot(m, now).(pod := Some(GetPod(m, now)));
            Reconcile(k, WithReports(started, [true]), etcd, now) == (UpSlot(m, now), etcd)
  {
    assert GetPod(m, now).(containerStatuses := [true]).Ready();
  }

  lemma Certified(w: World, k: nat)
    requires k < |w.slots| && w.now > ZERO_TIME
    requires NewMember(w.slots[k].member) && w.slots[k] == NewSlot(w.slots[k].member)
    ensures var m := w.slots[k].member;
            RunActs(w, Certify(k)) == With(w, k, ClaimedSlot(m, w.now))
  {
    hide RunActs, ApplyAct;
    var m := w.slots[k].member;
    NewSlotStages(k, m, w.etcd, w.now);
    FourActs(w, MemberAct(k), EnvAct(CertIssued(k, false)), EnvAct(CertIssued(k, true)), MemberAct(k));
    var asked := Slot(m, None, None, Some(ZERO_TIME), Some(ZERO_TIME));
    var client := Slot(m, None, None, Some(w.now), Some(ZERO_TIME));
    var both := Slot(m, None, None, Some(w.now), Some(w.now));
    assert With(w, k, NewSlot(m)) == w;
    MemberSets(w, k, NewSlot(m), asked);
    EnvSets(w, CertIssued(k, false), asked);
    EnvSets(w, CertIssued(k, true), client);
    MemberSets(w, k, both, ClaimedSlot(m, w.now));
  }

  lemma Launched(w: World, k: nat, m: Member)
    requires k < |w.slots| && w.now > ZERO_TIME && NewMember(m)
    ensures RunActs(With(w, k, ClaimedSlot(m, w.now)), Launch(k) + [MemberAct(k)])
            == With(w, k, UpSlot(m, w.now))
  {
    hide RunActs, ApplyAct;
    NewSlotStages(k, m, w.etcd, w.now);
    UpStage(k, m, w.etcd, w.now);
    var claimed := ClaimedSlot(m, w.now);
    var started := claimed.(pod := Some(GetPod(m, w.now)));
    var ready := WithReports(started, [true]);
    TwoActs(With(w, k, claimed), MemberAct(k), EnvAct(PodReports(k, [true])));
    LastAct(With(w, k, claimed), Launch(k), MemberAct(k));
    MemberSets(w, k, claimed, started);
    EnvSets(w, PodReports(k, [true]), started);
    MemberSets(w, k, ready, UpSlot(m, w.now));
  }

  lemma MemberComesUp(w: World, k: nat)
    requires k < |w.slots| && w.now > ZERO_TIME
    requires NewMember(w.slots[k].member) && w.slots[k] == NewSlot(w.slots[k].member)
    ensures RunActs(w, MemberUp(k)) == With(w, k, UpSlot(w.slots[k].member, w.now))
  {
    Certified(w, k);
    Launched(w, k, w.slots[k].member);
    ActsAppend(w, Certify(k), Launch(k) + [MemberAct(k)]);
  }

  // ----- the cluster

  function BringUp(n: nat): seq<Act> {
    if n == 0 then [ClusterAct(true)] else BringUp(n - 1) + MemberUp(n - 1)
  }

  /** Members below k are up, the others are new. */
  function UpSlots(c: Cluster, k: nat, now: Time): (slots: seq<Slot>)
    ensures |slots| == Count(c.spec.size)
  {
    seq(Count(c.spec.size), j requires 0 <= j =>
      if j < k then UpSlot(GetMember(c, j), now) else NewSlot(GetMember(c, j)))
  }

  function UpCluster(c: Cluster): Cluster {
    c.(status := ClusterStatus(ClusterCreating, c.spec.version, false), resourceVersion := c.resourceVersion + 1)
  }

  function UpWorld(w: World, k: nat): World {
    World(UpCluster(w.cluster), UpSlots(w.cluster, k, w.now), w.etcd, w.now)
  }

  lemma {:induction false} AllNew(ms: seq<Member>)
    requires forall k :: 0 <= k < |ms| ==> ms[k].status == NO_STATUS && !ms[k].spec.certificateUpdate
    ensures CountFailed(ms) == 0 && CountCreating(ms) == |ms| && !AnyExpiry(ms)
  {
    if ms != [] {
      AllNew(ms[..|ms| - 1]);
    }
  }

  lemma Created(w: World)
    requires Fresh(w) && w.cluster.spec.size > 0
    ensures ReconcileCluster(w, true) == UpWorld(w, 0)
  {
    var c0 := Opened(w.cluster);
    var n := Count(c0.spec.size);
    var slots := EnsureSlots(c0, [], n);
    forall k | 0 <= k < n
      ensures slots[k] == NewSlot(GetMember(w.cluster, k))
    {
      EnsureSlotsAt(c0, [], n, k);
    }
    assert slots == UpSlots(w.cluster, 0, w.now) && slots[..n] == slots;
    AllNew(Members(slots));
  }

  /** Every newly admitted cluster can come up: after these acts all members are Running at the version, each
      with a ready pod, its volume and its certificates, and the version is reported. */
  lemma {:induction false} ComesUp(w: World, k: nat)
    requires Fresh(w) && w.cluster.spec.size > 0 && k <= Count(w.cluster.spec.size)
    ensures RunActs(w, BringUp(k)) == UpWorld(w, k)
  {
    hide RunActs, MemberUp, UpWorld;
    if k == 0 {
      FirstAct(w);
    } else {
      ComesUp(w, k - 1);
      OneMoreUp(w, k - 1);
      ActsAppend(w, BringUp(k - 1), MemberUp(k - 1));
    }
  }

  lemma FirstAct(w: World)
    requires Fresh(w) && w.cluster.spec.size > 0
    ensures RunActs(w, [ClusterAct(true)]) == UpWorld(w, 0)
  {
    Created(w);
    OneAct(w, ClusterAct(true));
  }

  lemma OneMoreUp(w: World, k: nat)
    requires Fresh(w) && k < Count(w.cluster.spec.size)
    ensures RunActs(UpWorld(w, k), MemberUp(k)) == UpWorld(w, k + 1)
  {
    MemberComesUp(UpWorld(w, k), k);
    var up := UpSlot(GetMember(w.cluster, k), w.now);
    assert UpSlots(w.cluster, k, w.now)[k := up] == UpSlots(w.cluster, k + 1, w.now);
  }

  /** Then every member is Running at the version, and its pod has one ready container of that version, bootstraps
      the cluster, and restores the backup if there is one. */
  lemma EveryMemberServes(w: World, k: nat)
    requires Fresh(w) && k < Count(w.cluster.spec.size)
    ensures var n := Count(w.cluster.spec.size);
            var t := RunActs(w, BringUp(n));
            var c := w.cluster;
            var names := seq(n, j requires 0 <= j => c.name + "-" + Itoa(j));
            && |t.slots| == n && t.cluster.spec == c.spec
            && t.slots[k].member.name == c.name + "-" + Itoa(k)
            && t.slots[k].member.spec == MemberSpec(c.spec.version, c.spec.backup, c.name, c.uid, names, false, false)
            && t.slots[k].member.status == MemberStatus(c.spec.version, Running, 0, false)
            && t.slots[k].pod == Some(Pod(c.spec.version, New, c.spec.backup != "", w.now, 1, [true], false))
            && t.slots[k].pvc == Some(Pvc(false, false, true))
  {
    ComesUp(w, Count(w.cluster.spec.size));
    assert MemberNames(w.cluster.name, Count(w.cluster.spec.size))
        == seq(Count(w.cluster.spec.size), j requires 0 <= j => w.cluster.name + "-" + Itoa(j));
  }

  /** A newly admitted cluster of the given odd size. */
  function Sample(size: int): World {
    var spec := ClusterSpec("1", size, "", 3600, 86400);
    var cluster := Cluster("etcd", "default", "uid", 1, spec, ClusterStatus(NoClusterPhase, "", false));
    World(cluster, [], Bootstrap(Count(size)), 1)
  }

  lemma SampleIsFresh(size: int)
    requires size % 2 == 1
    ensures Fresh(Sample(size))
  {
  }
}
