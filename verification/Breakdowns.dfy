/** Acts that take a cluster that has come up into a repair of its first member, and through it. */

module Breakdowns {
  import opened Wrappers
  import opened Api
  import opened Etcd
  import opened Objects
  import opened MemberController
  import opened ClusterController
  import opened Invariant
  import opened AtomicRuns
  import opened Limits
  import opened Startup

  // ----- the first member fails

  function FailFirst(): seq<Act> {
    [EnvAct(PodReports(0, [false])), MemberAct(0)]
  }

  /** Running with a pod of one container and nothing to do. */
  predicate Quiet(s: Slot, now: Time) {
    s.member.status.phase == Running && s.member.spec.version == s.member.status.version
    && !s.member.spec.broken && !s.member.spec.certificateUpdate && !s.member.status.certificateExpires
    && s.pod.Some? && s.pod.value.containers == 1 && !s.pod.value.terminating && s.PodReady()
    && s.Issued() && s.peerCert.value <= s.pod.value.created && s.peerCert.value <= now
    && s.pvc.Some? && !s.pvc.value.terminating && s.pvc.value.seenReady
  }

  function FailedSlot(s: Slot, now: Time): Slot {
    if s.pod.None? then s else
      s.(member := s.member.(status := s.member.status.(phase := Failed, failedTime := now),
                             resourceVersion := s.member.resourceVersion + 1),
         pod := Some(s.pod.value.(containerStatuses := [false])))
  }

  lemma FailedStage(s: Slot, etcd: Membership, now: Time)
    requires Quiet(s, now)
    ensures Reconcile(0, WithReports(s, [false]), etcd, now) == (FailedSlot(s, now), etcd)
  {
    var pod := s.pod.value.(containerStatuses := [false]);
    assert !pod.containerStatuses[0];
    assert !pod.Ready();
  }

  lemma FirstFails(w: World)
    requires |w.slots| > 0 && Quiet(w.slots[0], w.now)
    ensures RunActs(w, FailFirst()) == With(w, 0, FailedSlot(w.slots[0], w.now))
  {
    var s := w.slots[0];
    TwoActs(w, EnvAct(PodReports(0, [false])), MemberAct(0));
    assert With(w, 0, s) == w;
    EnvSets(w, PodReports(0, [false]), s);
    FailedStage(s, w.etcd, w.now);
    MemberSets(w, 0, WithReports(s, [false]), FailedSlot(s, w.now));
  }

  // ----- it is marked

  function Mark(): seq<Act> {
    [EnvAct(Tick(MINOR_FAILED_TIMEOUT + 1)), ClusterAct(true)]
  }

  predicate FirstFailed(w: World) {
    |w.slots| == Count(w.cluster.spec.size) && w.cluster.spec.size >= 3
    && w.slots[0].member.status.phase == Failed && !w.slots[0].member.spec.broken
    && forall k :: 0 < k < |w.slots| ==> w.slots[k].member.status.phase == Running && !w.slots[k].member.spec.broken
  }

  lemma {:induction false} OneFailed(ms: seq<Member>, cutoff: Time)
    requires ms != [] && ms[0].status.phase == Failed && ms[0].status.failedTime < cutoff
    requires forall k :: 0 < k < |ms| ==> ms[k].status.phase == Running
    ensures CountFailed(ms) == 1 && CountCreating(ms) == 0 && Oldest(ms, cutoff) == Some(0)
  {
    if |ms| > 1 {
      OneFailed(ms[..|ms| - 1], cutoff);
    } else {
      assert ms[..0] == [];
    }
  }

  lemma FirstMarked(w: World)
    requires FirstFailed(w) && w.slots[0].member.status.failedTime < w.now - MINOR_FAILED_TIMEOUT
    ensures var t := ReconcileCluster(w, true);
            t == With(w, 0, MarkBroken(w.slots[0])).(cluster := t.cluster)
            && t.cluster.spec == w.cluster.spec && t.cluster.status.version == w.cluster.spec.version
  {
    var c0 := Opened(w.cluster);
    var n := Count(c0.spec.size);
    forall k | 0 <= k < n
      ensures EnsureSlots(c0, w.slots, n)[k] == w.slots[k]
    {
      EnsureSlotsAt(c0, w.slots, n, k);
    }
    assert EnsureSlots(c0, w.slots, n) == w.slots && w.slots[..n] == w.slots;
    OneFailed(Members(w.slots), w.now - MINOR_FAILED_TIMEOUT);
  }

  // ----- it is torn down

  function TearDown(): seq<Act> {
    [MemberAct(0), EnvAct(PodGone(0)), MemberAct(0), EnvAct(PvcGone(0))]
  }

  lemma TornDown(w: World)
    requires |w.slots| > 0 && w.slots[0].member.spec.broken && w.slots[0].pod.Some? && w.slots[0].pvc.Some?
    ensures RunActs(w, TearDown()) == With(w, 0, w.slots[0].(pod := None, pvc := None))
  {
    var s := w.slots[0];
    FourActs(w, MemberAct(0), EnvAct(PodGone(0)), MemberAct(0), EnvAct(PvcGone(0)));
    assert With(w, 0, s) == w;
    var going := s.(pod := Some(s.pod.value.(terminating := true)));
    var claim := s.(pod := None, pvc := Some(s.pvc.value.(terminating := true)));
    MemberSets(w, 0, s, going);
    EnvSets(w, PodGone(0), going);
    MemberSets(w, 0, s.(pod := None), claim);
    EnvSets(w, PvcGone(0), claim);
  }

  lemma MarkedAt(w: World, act: Act) returns (t: World)
    requires FirstFailed(w) && w.slots[0].member.status.failedTime < w.now - MINOR_FAILED_TIMEOUT
    requires act == ClusterAct(true)
    ensures t == ApplyAct(w, act)
    ensures t == World(t.cluster, w.slots[0 := MarkBroken(w.slots[0])], w.etcd, w.now)
    ensures t.cluster.spec == w.cluster.spec && t.cluster.status.version == w.cluster.spec.version
  {
    FirstMarked(w);
    t := ReconcileCluster(w, true);
  }

  /** The grace period goes by, and the first member is marked. */
  lemma MarkedLater(w: World, tick: Act, act: Act) returns (t: World)
    requires FirstFailed(w) && w.slots[0].member.status.failedTime <= w.now
    requires ApplyAct(w, tick) == w.(now := w.now + MINOR_FAILED_TIMEOUT + 1) && act == ClusterAct(true)
    ensures t == RunActs(w, [tick, act])
    ensures t == World(t.cluster, w.slots[0 := MarkBroken(w.slots[0])], w.etcd, w.now + MINOR_FAILED_TIMEOUT + 1)
    ensures t.cluster.spec == w.cluster.spec && t.cluster.status.version == w.cluster.spec.version
  {
    TwoActs(w, tick, act);
    t := MarkedAt(w.(now := w.now + MINOR_FAILED_TIMEOUT + 1), act);
  }

  /** From the failure to the point where nothing of the member's old life is left. */
  lemma FirstGone(w: World) returns (t: World)
    requires FirstFailed(w) && w.slots[0].member.status.failedTime <= w.now
    requires w.slots[0].pod.Some? && w.slots[0].pvc.Some?
    ensures t == RunActs(w, Mark() + TearDown())
    ensures t == World(t.cluster, w.slots[0 := MarkBroken(w.slots[0]).(pod := None, pvc := None)], w.etcd,
                       w.now + MINOR_FAILED_TIMEOUT + 1)
    ensures t.cluster.spec == w.cluster.spec && t.cluster.status.version == w.cluster.spec.version
  {
    var marked := MarkedLater(w, EnvAct(Tick(MINOR_FAILED_TIMEOUT + 1)), ClusterAct(true));
    TornDown(marked);
    ActsAppend(w, Mark(), TearDown());
    t := With(marked, 0, marked.slots[0].(pod := None, pvc := None));
  }

  // ----- it is added again and comes back

  function Rejoin(): seq<Act> {
    [MemberAct(0)] + ([MemberAct(0), EnvAct(PodReports(0, [true]))] + [MemberAct(0)])
  }

  predicate Rejoining(s: Slot, now: Time) {
    s.member.status.phase == Recreating && !s.member.spec.broken && !s.member.spec.certificateUpdate
    && !s.member.status.certificateExpires
    && s.pod.None? && s.pvc == Some(Pvc(false, true, false)) && s.Issued() && s.peerCert.value <= now
  }

  lemma ReaddStage(s: Slot, etcd: Membership, n: nat, now: Time)
    requires s.member.spec.broken && s.pod.None? && s.pvc.None? && s.Issued() && s.peerCert.value <= now
    requires !s.member.spec.certificateUpdate && !s.member.status.certificateExpires
    requires ListOk(etcd, n) && !Nameless(etcd.entries, 0)
    ensures var r := Reconcile(0, s, etcd, now).0;
            Rejoining(r, now) && r.member.spec == s.member.spec.(broken := false)
            && r.clientCert == s.clientCert && r.peerCert == s.peerCert
  {
    ReaddsUnlessNameless(etcd, n, 0);
    RepairUpToDate(0, View(s.member, s, etcd));
  }

  function RejoinedSlot(s: Slot, now: Time): Slot {
    Slot(s.member.(status := s.member.status.(phase := Running, version := s.member.spec.version),
                   resourceVersion := s.member.resourceVersion + 1),
         Some(GetPod(s.member, now).(containerStatuses := [true])), Some(Pvc(false, true, true)),
         s.clientCert, s.peerCert)
  }

  lemma RejoinStages(s: Slot, etcd: Membership, now: Time)
    requires Rejoining(s, now)
    ensures var started := s.(pod := Some(GetPod(s.member, now)));
            Reconcile(0, s, etcd, now) == (started, etcd)
            && Reconcile(0, WithReports(started, [true]), etcd, now) == (RejoinedSlot(s, now), etcd)
  {
    assert GetPod(s.member, now).(containerStatuses := [true]).Ready();
  }

  lemma ComesBack(w: World, s: Slot)
    requires |w.slots| > 0 && Rejoining(s, w.now)
    ensures RunActs(With(w, 0, s), [MemberAct(0), EnvAct(PodReports(0, [true]))] + [MemberAct(0)])
            == With(w, 0, RejoinedSlot(s, w.now))
  {
    var started := s.(pod := Some(GetPod(s.member, w.now)));
    RejoinStages(s, w.etcd, w.now);
    TwoActs(With(w, 0, s), MemberAct(0), EnvAct(PodReports(0, [true])));
    LastAct(With(w, 0, s), [MemberAct(0), EnvAct(PodReports(0, [true]))], MemberAct(0));
    MemberSets(w, 0, s, started);
    EnvSets(w, PodReports(0, [true]), started);
    MemberSets(w, 0, WithReports(started, [true]), RejoinedSlot(s, w.now));
  }

  /** The repaired member runs what its spec asks for. */
  lemma Rejoined(w: World, n: nat)
    requires |w.slots| > 0 && ListOk(w.etcd, n) && !Nameless(w.etcd.entries, 0)
    requires var s := w.slots[0];
             s.member.spec.broken && s.pod.None? && s.pvc.None? && s.Issued() && s.peerCert.value <= w.now
             && !s.member.spec.certificateUpdate && !s.member.status.certificateExpires
    ensures var t := RunActs(w, Rejoin());
            && |t.slots| > 0 && t == With(w, 0, t.slots[0]).(etcd := t.etcd) && Quiet(t.slots[0], w.now)
            && t.slots[0].member.spec == w.slots[0].member.spec.(broken := false)
            && t.slots[0].pod.value.version == w.slots[0].member.spec.version
  {
    var s := w.slots[0];
    ReaddStage(s, w.etcd, n, w.now);
    OneAct(w, MemberAct(0));
    var (r, etcd) := Reconcile(0, s, w.etcd, w.now);
    var x := w.(etcd := etcd);
    ComesBack(x, r);
    ActsAppend(w, [MemberAct(0)], [MemberAct(0), EnvAct(PodReports(0, [true]))] + [MemberAct(0)]);
  }
}
