/** How far a version rollout that nothing disturbs gets, and when it comes to its end. */

module Termination {
  import opened Api
  import opened Objects
  import opened MemberController
  import opened ClusterController
  import opened AtomicRuns

  // ----- the stages of one member's rollout to v

  predicate LivePod(s: Slot) {
    s.PodReady() && !s.pod.value.terminating
  }

  /** Not yet told about v. */
  predicate Waiting(s: Slot, v: string) {
    s.member.status.phase == Running && s.member.spec.version != v
    && s.member.status.version == s.member.spec.version && LivePod(s)
  }

  /** Told about v, and its old pod not yet replaced. */
  predicate Replacing(s: Slot, v: string) {
    s.member.status.phase == Running && s.member.spec.version == v && s.member.status.version != v
    && (s.pod.Some? && !s.pod.value.terminating ==> s.PodReady())
  }

  /** The new pod is there. */
  predicate Coming(s: Slot, v: string) {
    s.member.status.phase == Updating && s.member.spec.version == v && s.pod.Some? && !s.pod.value.terminating
  }

  predicate Done(s: Slot, v: string) {
    s.member.status.phase == Running && s.member.spec.version == v && s.member.status.version == v && LivePod(s)
  }

  /** No repair, no certificate business, and nothing that will cause any. */
  predicate Undisturbed(s: Slot, now: Time) {
    && !s.member.spec.broken && !s.member.spec.certificateUpdate && !s.member.status.certificateExpires
    && s.Issued() && s.peerCert.value <= now
    && (s.pod.Some? ==> s.pod.value.containers == 1 && s.peerCert.value <= s.pod.value.created)
  }

  predicate RollingSlot(s: Slot, v: string, now: Time) {
    Undisturbed(s, now) && (Waiting(s, v) || Replacing(s, v) || Coming(s, v) || Done(s, v))
  }

  function Rank(s: Slot, v: string): nat {
    if Waiting(s, v) then 6
    else if Replacing(s, v) then
      if s.pod.None? then 3 else if s.pod.value.terminating then 4 else 5
    else if Coming(s, v) then
      if s.pod.value.Ready() then 1 else 2
    else 0
  }

  function Total(slots: seq<Slot>, v: string): nat {
    if slots == [] then 0 else Total(slots[..|slots| - 1], v) + Rank(slots[|slots| - 1], v)
  }

  predicate AllRolling(slots: seq<Slot>, v: string, now: Time) {
    forall k :: 0 <= k < |slots| ==> RollingSlot(slots[k], v, now)
  }

  /** A cluster in the middle of a rollout. */
  predicate Rolling(w: World, v: string) {
    && w.cluster.spec.version == v && |w.slots| == Count(w.cluster.spec.size)
    && AllRolling(w.slots, v, w.now)
  }

  predicate AllTold(slots: seq<Slot>, v: string) {
    forall k :: 0 <= k < |slots| ==> !Waiting(slots[k], v)
  }

  /** The cluster controller still has a reason to look at the members, or need not tell any. */
  predicate Attended(w: World, v: string) {
    w.cluster.status.version == v ==> AllTold(w.slots, v)
  }

  /** Steps of a run without failures, renewals and changes of the version. A pod that is up stays up until it
      is deleted; a pod that is starting or going down may report anything. */
  predicate Smooth(w: World, act: Act) {
    match act
    case ClusterAct(_) => true
    case MemberAct(_) => true
    case EnvAct(Tick(_)) => true
    case EnvAct(PodGone(i)) => i < |w.slots| && w.slots[i].pod.Some? && w.slots[i].pod.value.terminating
    case EnvAct(PodReports(i, statuses)) =>
      i < |w.slots| && LivePod(w.slots[i]) ==> LivePod(WithReports(w.slots[i], statuses))
    case EnvAct(PvcGone(_)) => true
    case EnvAct(EtcdStarted(_)) => true
    case EnvAct(UserEdit(spec)) => spec.version == w.cluster.spec.version
    case EnvAct(CertIssued(_, _)) => false
  }

  // ----- sums

  lemma {:induction false} TotalUpdate(slots: seq<Slot>, v: string, i: nat, s: Slot)
    requires i < |slots|
    ensures Total(slots[i := s], v) == Total(slots, v) - Rank(slots[i], v) + Rank(s, v)
  {
    var last := |slots| - 1;
    if i < last {
      TotalUpdate(slots[..last], v, i, s);
      assert slots[i := s][..last] == slots[..last][i := s];
    } else {
      assert slots[i := s][..last] == slots[..last];
    }
  }

  lemma {:induction false} TotalZero(slots: seq<Slot>, v: string)
    ensures Total(slots, v) == 0 <==> forall k :: 0 <= k < |slots| ==> Rank(slots[k], v) == 0
  {
    if slots != [] {
      TotalZero(slots[..|slots| - 1], v);
      assert forall k :: 0 <= k < |slots| - 1 ==> slots[..|slots| - 1][k] == slots[k];
    }
  }

  lemma {:induction false} TotalBound(slots: seq<Slot>, v: string)
    ensures Total(slots, v) <= 6 * |slots|
  {
    if slots != [] {
      TotalBound(slots[..|slots| - 1], v);
    }
  }

  // ----- one step

  /** It is the member controller's turn. */
  predicate MemberMoves(s: Slot, v: string) {
    (Replacing(s, v) && (s.pod.Some? ==> !s.pod.value.terminating)) || (Coming(s, v) && s.PodReady())
  }

  lemma MemberRolls(i: nat, w: World, v: string)
    requires i < |w.slots| && RollingSlot(w.slots[i], v, w.now)
    ensures var (r, etcd) := Reconcile(i, w.slots[i], w.etcd, w.now);
            RollingSlot(r, v, w.now) && etcd == w.etcd && (r == w.slots[i] || Rank(r, v) < Rank(w.slots[i], v))
            && (MemberMoves(w.slots[i], v) ==> Rank(r, v) < Rank(w.slots[i], v))
            && (Waiting(w.slots[i], v) <==> Waiting(r, v))
  {
    var s := w.slots[i];
    var x := View(s.member, s, w.etcd);
    assert !EnsureCertificates(x).stop && EnsureCertificates(x).view == x;
    var checked := CheckCertificateExpires(x);
    assert checked == x;
    assert EnsurePVC(x) == Reply(x, false);
  }

  /** The same member with the same pod, up to reports that do not change whether the pod is live. */
  predicate SamePod(a: Slot, b: Slot) {
    a.member == b.member && (a.pod.Some? <==> b.pod.Some?)
    && (a.pod.Some? ==> a.pod.value.(containerStatuses := []) == b.pod.value.(containerStatuses := []))
    && (LivePod(a) <==> LivePod(b))
  }

  predicate SmoothAt(s: Slot, e: EnvStep) {
    match e
    case PodGone(_) => s.pod.Some? && s.pod.value.terminating
    case PodReports(_, statuses) => LivePod(s) ==> LivePod(WithReports(s, statuses))
    case PvcGone(_) => true
    case _ => false
  }

  lemma EnvRolls(s: Slot, e: EnvStep, v: string, now: Time)
    requires RollingSlot(s, v, now) && SmoothAt(s, e)
    ensures var r := EnvSlot(s, e, now);
            RollingSlot(r, v, now) && Rank(r, v) <= Rank(s, v)
            && (SamePod(s, r) || Rank(r, v) < Rank(s, v))
            && (Waiting(s, v) <==> Waiting(r, v))
            && (Replacing(s, v) && e.PodGone? ==> Rank(r, v) < Rank(s, v))
            && (Coming(s, v) && !s.PodReady() && e.PodReports? && e.containerStatuses == [true] ==>
                  Rank(r, v) < Rank(s, v))
  {
  }

  /** The update loop either runs to its end over finished members, or leaves the members alone, or tells
      the lowest waiting member about the version; the last whenever nobody is in between. */
  lemma {:induction false} LoopRolls(c: Cluster, slots: seq<Slot>, i: nat, v: string, now: Time)
    requires |slots| == Count(c.spec.size) && AllRolling(slots, v, now)
    requires c.spec.version == v && !c.status.certificateExpires
    ensures var r := UpdateFrom(c, slots, i);
            && (!r.stop ==> r.slots == slots && forall k :: i <= k < |slots| ==> Done(slots[k], v))
            && (r.slots == slots || exists k :: 0 <= k < |slots| && Waiting(slots[k], v)
                                      && r.slots == slots[k := BumpVersion(slots[k], v)])
            && ((forall k :: i <= k < |slots| ==> Done(slots[k], v) || Waiting(slots[k], v)) ==>
                  !r.stop || r.slots != slots)
            && r.cluster.spec == c.spec && r.cluster.status.version == c.status.version
            && r.cluster.resourceVersion == c.resourceVersion
    decreases |slots| - i
  {
    if i < |slots| {
      assert RollingSlot(slots[i], v, now);
      var m := slots[i].member;
      if m.status.phase != Updating {
        if v != m.spec.version {
          assert Waiting(slots[i], v);
          assert BumpVersion(slots[i], v).member.spec.version == v;
          assert BumpVersion(slots[i], v) != slots[i];
        } else if v == m.status.version {
          LoopRolls(c, slots, i + 1, v, now);
        }
      }
    }
  }

  predicate NoNewWaiting(a: seq<Slot>, b: seq<Slot>, v: string) {
    |a| == |b| && forall k :: 0 <= k < |a| && Waiting(b[k], v) ==> Waiting(a[k], v)
  }

  lemma BumpRolls(s: Slot, v: string, now: Time)
    requires RollingSlot(s, v, now) && Waiting(s, v)
    ensures RollingSlot(BumpVersion(s, v), v, now) && Rank(BumpVersion(s, v), v) < Rank(s, v)
  {
  }

  lemma AssessRolling(c: Cluster, slots: seq<Slot>, v: string, now: Time)
    requires |slots| == Count(c.spec.size) && AllRolling(slots, v, now)
    ensures var a := Assess(c, Members(slots));
            a.status == ClusterStatus(ClusterRunning, c.status.version, false)
  {
    var ms := Members(slots);
    forall k | 0 <= k < |ms|
      ensures ms[k].status.phase == Running || ms[k].status.phase == Updating
      ensures !ms[k].status.certificateExpires && !ms[k].spec.certificateUpdate
    {
      assert RollingSlot(slots[k], v, now);
    }
    NoneCounted(ms);
  }

  predicate Between(slots: seq<Slot>, v: string) {
    exists k :: 0 <= k < |slots| && !Done(slots[k], v) && !Waiting(slots[k], v)
  }

  lemma LoopTotals(c: Cluster, slots: seq<Slot>, v: string, now: Time)
    requires |slots| == Count(c.spec.size) && AllRolling(slots, v, now)
    requires c.spec.version == v && !c.status.certificateExpires
    ensures var r := UpdateFrom(c, slots, 0);
            && AllRolling(r.slots, v, now) && r.cluster.spec == c.spec && r.cluster.status.version == c.status.version
            && r.cluster.resourceVersion == c.resourceVersion
            && (r.slots == slots || Total(r.slots, v) < Total(slots, v))
            && NoNewWaiting(slots, r.slots, v)
            && (!r.stop ==> r.slots == slots && Total(slots, v) == 0)
            && (Total(slots, v) == 0 ==> !r.stop)
            && (Total(slots, v) > 0 && !Between(slots, v) ==> Total(r.slots, v) < Total(slots, v))
  {
    LoopRolls(c, slots, 0, v, now);
    TotalZero(slots, v);
    var r := UpdateFrom(c, slots, 0);
    if r.slots != slots {
      var k :| 0 <= k < |slots| && Waiting(slots[k], v) && r.slots == slots[k := BumpVersion(slots[k], v)];
      BumpRolls(slots[k], v, now);
      TotalUpdate(slots, v, k, BumpVersion(slots[k], v));
    } else if Total(slots, v) == 0 {
      assert forall k :: 0 <= k < |slots| ==> RollingSlot(slots[k], v, now);
    }
  }

  lemma StagesRolling(c0: Cluster, slots: seq<Slot>, v: string, now: Time)
    requires |slots| == Count(c0.spec.size) && AllRolling(slots, v, now)
    ensures var c := Assess(c0, Members(slots));
            var r := UpdateFrom(c, slots, 0);
            c.status == ClusterStatus(ClusterRunning, c0.status.version, false)
            && ClusterStages(c0, slots, now)
               == if c.ShouldUpdate() then (if r.stop then r.cluster else WithVersion(r.cluster), r.slots)
                  else (WithVersion(c), slots)
  {
    EnsureAll(c0, slots);
    assert slots[..Count(c0.spec.size)] == slots;
    AssessRolling(c0, slots, v, now);
  }

  /** What the stages of a cluster reconcile do to a rollout; c is the working copy they leave. */
  predicate StagesRoll(c0: Cluster, slots: seq<Slot>, c: Cluster, r: seq<Slot>, v: string, now: Time) {
    && AllRolling(r, v, now) && NoNewWaiting(slots, r, v)
    && c.spec == c0.spec && c.resourceVersion == c0.resourceVersion
    && (r == slots || Total(r, v) < Total(slots, v))
    && (c0.status.version == v ==> r == slots && c.status.version == v)
    && (c0.status.version != v && c.status.version == v ==> Total(r, v) == 0)
    && (Total(slots, v) == 0 ==> c.status.version == v)
    && (c0.status.version != v && Total(slots, v) > 0 && !Between(slots, v) ==> Total(r, v) < Total(slots, v))
  }

  lemma StagesRollOn(c0: Cluster, slots: seq<Slot>, v: string, now: Time)
    requires |slots| == Count(c0.spec.size) && AllRolling(slots, v, now) && c0.spec.version == v
    ensures var (c, r) := ClusterStages(c0, slots, now);
            StagesRoll(c0, slots, c, r, v, now)
  {
    StagesRolling(c0, slots, v, now);
    LoopTotals(Assess(c0, Members(slots)), slots, v, now);
  }

  lemma ClusterRolls(w: World, v: string, prepared: bool)
    requires Rolling(w, v)
    ensures var t := ReconcileCluster(w, prepared);
            && Rolling(t, v) && t.now == w.now && NoNewWaiting(w.slots, t.slots, v)
            && (t.slots == w.slots || Total(t.slots, v) < Total(w.slots, v))
            && (w.cluster.status.version == v ==> t.slots == w.slots && t.cluster.status.version == v)
            && (w.cluster.status.version != v && t.cluster.status.version == v ==> Total(t.slots, v) == 0)
            && (prepared && Total(w.slots, v) == 0 ==> t.cluster.status.version == v)
            && (prepared && w.cluster.status.version != v && Total(w.slots, v) > 0 && !Between(w.slots, v) ==>
                  Total(t.slots, v) < Total(w.slots, v))
  {
    if prepared {
      StagesRollOn(Opened(w.cluster), w.slots, v, w.now);
      var (c, slots) := ClusterStages(Opened(w.cluster), w.slots, w.now);
      assert PutClusterStatus(w.cluster, c).status == c.status;
    }
  }

  lemma EnsureAll(c: Cluster, slots: seq<Slot>)
    requires |slots| == Count(c.spec.size)
    ensures EnsureSlots(c, slots, Count(c.spec.size)) == slots
  {
    var r := EnsureSlots(c, slots, Count(c.spec.size));
    forall k | 0 <= k < |slots|
      ensures r[k] == slots[k]
    {
      EnsureSlotsAt(c, slots, Count(c.spec.size), k);
    }
  }

  predicate SamePods(a: seq<Slot>, b: seq<Slot>) {
    |a| == |b| && forall k :: 0 <= k < |a| ==> SamePod(a[k], b[k])
  }

  lemma MemberActRolls(w: World, i: nat, v: string)
    requires Rolling(w, v) && i < |w.slots|
    ensures var t := ReconcileMember(w, i);
            Rolling(t, v) && (t.slots == w.slots || Total(t.slots, v) < Total(w.slots, v))
            && (MemberMoves(w.slots[i], v) ==> Total(t.slots, v) < Total(w.slots, v))
            && t.cluster == w.cluster && SameWaiting(w.slots, t.slots, v)
  {
    MemberRolls(i, w, v);
    TotalUpdate(w.slots, v, i, Reconcile(i, w.slots[i], w.etcd, w.now).0);
  }

  predicate SameWaiting(a: seq<Slot>, b: seq<Slot>, v: string) {
    NoNewWaiting(a, b, v) && NoNewWaiting(b, a, v)
  }

  /** A step that brings the rollout no farther from its end. */
  predicate Rolls(w: World, t: World, v: string) {
    Rolling(t, v) && Total(t.slots, v) <= Total(w.slots, v)
    && (SamePods(w.slots, t.slots) || Total(t.slots, v) < Total(w.slots, v))
  }

  lemma SlotRolls(w: World, i: nat, r: Slot, v: string)
    requires Rolling(w, v) && i < |w.slots| && RollingSlot(r, v, w.now) && Rank(r, v) <= Rank(w.slots[i], v)
    requires SamePod(w.slots[i], r) || Rank(r, v) < Rank(w.slots[i], v)
    requires Waiting(w.slots[i], v) <==> Waiting(r, v)
    ensures var t := w.(slots := w.slots[i := r]);
            Rolls(w, t, v) && SameWaiting(w.slots, t.slots, v)
  {
    TotalUpdate(w.slots, v, i, r);
  }

  lemma EnvActRolls(w: World, e: EnvStep, v: string)
    requires Rolling(w, v) && Smooth(w, EnvAct(e))
    ensures var t := Env(w, e);
            Rolls(w, t, v) && t.cluster.status == w.cluster.status && SameWaiting(w.slots, t.slots, v)
  {
    if !e.Tick? && !e.UserEdit? && !e.EtcdStarted? && e.i < |w.slots| {
      EnvRolls(w.slots[e.i], e, v, w.now);
      SlotRolls(w, e.i, EnvSlot(w.slots[e.i], e, w.now), v);
    }
  }

  /** Who waits has not changed, or nothing is left to do. */
  lemma WaitingKept(w: World, t: World, v: string)
    requires |t.slots| == |w.slots| && NoNewWaiting(w.slots, t.slots, v)
    requires w.cluster.status.version == v ==> t.cluster.status.version == v
    requires w.cluster.status.version == v ==> SameWaiting(w.slots, t.slots, v)
    requires w.cluster.status.version != v && t.cluster.status.version == v ==> Total(t.slots, v) == 0
    ensures Attended(t, v) <==> Attended(w, v)
  {
    TotalZero(t.slots, v);
  }

  lemma ClusterActRolls(w: World, prepared: bool, v: string)
    requires Rolling(w, v)
    ensures var t := ReconcileCluster(w, prepared);
            Rolls(w, t, v) && (Attended(t, v) <==> Attended(w, v))
            && (w.cluster.status.version == v ==> t.cluster.status.version == v && SameWaiting(w.slots, t.slots, v))
  {
    ClusterRolls(w, v, prepared);
    WaitingKept(w, ReconcileCluster(w, prepared), v);
  }

  /** Every step keeps the rollout going, and one that changes a member or a pod brings it closer to its end.
      A cluster that attends to its members goes on doing so, and one that does not never starts again. */
  lemma StepRolls(w: World, act: Act, v: string)
    requires Rolling(w, v) && Smooth(w, act)
    ensures var t := ApplyAct(w, act);
            Rolling(t, v) && Total(t.slots, v) <= Total(w.slots, v)
            && (SamePods(w.slots, t.slots) || Total(t.slots, v) < Total(w.slots, v))
    ensures Attended(ApplyAct(w, act), v) <==> Attended(w, v)
    ensures w.cluster.status.version == v ==>
      var t := ApplyAct(w, act);
      t.cluster.status.version == v && SameWaiting(w.slots, t.slots, v)
  {
    match act
    case ClusterAct(prepared) =>
      ClusterActRolls(w, prepared, v);
    case MemberAct(i) =>
      if i < |w.slots| {
        MemberActRolls(w, i, v);
      }
    case EnvAct(e) =>
      EnvActRolls(w, e, v);
  }

  // ----- results

  ghost predicate SmoothRun(w: World, acts: seq<Act>) {
    forall k :: 0 <= k < |acts| ==> Smooth(RunActs(w, acts[..k]), acts[k])
  }

  /** How many acts of a run change a member or a pod. */
  ghost function Changes(w: World, acts: seq<Act>): nat {
    if acts == [] then 0 else
      var before := acts[..|acts| - 1];
      Changes(w, before) + if SamePods(RunActs(w, before).slots, RunActs(w, acts).slots) then 0 else 1
  }

  lemma OneMoreChange(u: World, act: Act, v: string)
    requires Rolling(u, v) && Smooth(u, act)
    ensures var t := ApplyAct(u, act);
            Rolling(t, v) && (if SamePods(u.slots, t.slots) then 0 else 1) + Total(t.slots, v) <= Total(u.slots, v)
  {
    StepRolls(u, act, v);
  }

  /** No undisturbed run changes anything more often than six times for each member. */
  lemma {:induction false} RolloutTerminates(w: World, acts: seq<Act>, v: string)
    requires Rolling(w, v) && SmoothRun(w, acts)
    ensures Rolling(RunActs(w, acts), v)
    ensures Changes(w, acts) + Total(RunActs(w, acts).slots, v) <= Total(w.slots, v) <= 6 * |w.slots|
  {
    TotalBound(w.slots, v);
    if acts != [] {
      var before := acts[..|acts| - 1];
      assert forall k :: 0 <= k < |before| ==> before[..k] == acts[..k] && before[k] == acts[k];
      RolloutTerminates(w, before, v);
      assert before == acts[..|before|];
      OneMoreChange(RunActs(w, before), acts[|acts| - 1], v);
    }
  }

  /** As long as the rollout is not over, and the version of a member not yet told is not reported already, some
      step brings it closer to its end. */
  lemma RolloutProgresses(w: World, v: string) returns (act: Act)
    requires Rolling(w, v) && Attended(w, v) && Total(w.slots, v) > 0
    ensures Smooth(w, act) && Total(ApplyAct(w, act).slots, v) < Total(w.slots, v)
  {
    if Between(w.slots, v) {
      var i :| 0 <= i < |w.slots| && !Done(w.slots[i], v) && !Waiting(w.slots[i], v);
      var s := w.slots[i];
      assert RollingSlot(s, v, w.now);
      if Replacing(s, v) && s.pod.Some? && s.pod.value.terminating {
        act := EnvAct(PodGone(i));
        EnvRolls(s, PodGone(i), v, w.now);
        TotalUpdate(w.slots, v, i, EnvSlot(s, PodGone(i), w.now));
      } else if Coming(s, v) && !s.PodReady() {
        act := EnvAct(PodReports(i, [true]));
        EnvRolls(s, PodReports(i, [true]), v, w.now);
        TotalUpdate(w.slots, v, i, EnvSlot(s, PodReports(i, [true]), w.now));
      } else {
        act := MemberAct(i);
        MemberActRolls(w, i, v);
      }
    } else {
      act := ClusterAct(true);
      ClusterRolls(w, v, true);
      SomebodyWaits(w.slots, v, w.now);
    }
  }

  lemma SomebodyWaits(slots: seq<Slot>, v: string, now: Time)
    requires AllRolling(slots, v, now) && Total(slots, v) > 0 && !Between(slots, v)
    ensures !AllTold(slots, v)
  {
    TotalZero(slots, v);
  }

  /** When nothing is left to do every member runs v, and the next reconcile of the cluster reports it. */
  lemma RolloutReports(w: World, v: string)
    requires Rolling(w, v) && Total(w.slots, v) == 0
    ensures forall k :: 0 <= k < |w.slots| ==> Done(w.slots[k], v)
    ensures ReconcileCluster(w, true).cluster.status.version == v
  {
    ClusterRolls(w, v, true);
    TotalZero(w.slots, v);
    forall k | 0 <= k < |w.slots|
      ensures Done(w.slots[k], v)
    {
      assert RollingSlot(w.slots[k], v, w.now);
    }
  }

  predicate Finished(w: World, v: string) {
    w.cluster.status.version == v && forall k :: 0 <= k < |w.slots| ==> Done(w.slots[k], v)
  }

  lemma {:induction false} Finishing(w: World, v: string) returns (acts: seq<Act>)
    requires Rolling(w, v) && Attended(w, v)
    ensures SmoothRun(w, acts) && Finished(RunActs(w, acts), v)
    decreases Total(w.slots, v)
  {
    if Total(w.slots, v) == 0 {
      acts := [ClusterAct(true)];
      ClusterRolls(w, v, true);
      assert acts[..0] == [];
      RolloutReports(ReconcileCluster(w, true), v);
    } else {
      var act := RolloutProgresses(w, v);
      StepRolls(w, act, v);
      var rest := Finishing(ApplyAct(w, act), v);
      acts := [act] + rest;
      ActsFromFirst(w, act, rest);
      SmoothFromFirst(w, act, rest);
    }
  }

  lemma SmoothFromFirst(w: World, act: Act, rest: seq<Act>)
    requires Smooth(w, act) && SmoothRun(ApplyAct(w, act), rest)
    ensures SmoothRun(w, [act] + rest)
  {
    var acts := [act] + rest;
    forall k | 0 <= k < |acts|
      ensures Smooth(RunActs(w, acts[..k]), acts[k])
    {
      if k == 0 {
        assert acts[..k] == [];
      } else {
        ActsFromFirst(w, act, rest[..k - 1]);
        assert acts[..k] == [act] + rest[..k - 1];
      }
    }
  }

  /** Once v is reported a member that was not told about it never is: whoever waits goes on waiting, in every
      state of every undisturbed run. */
  lemma {:induction false} StuckForGood(w: World, acts: seq<Act>, v: string, k: nat)
    requires Rolling(w, v) && SmoothRun(w, acts)
    requires w.cluster.status.version == v && k < |w.slots| && Waiting(w.slots[k], v)
    ensures var t := RunActs(w, acts);
            Rolling(t, v) && t.cluster.status.version == v && k < |t.slots| && Waiting(t.slots[k], v)
  {
    if acts != [] {
      var before := acts[..|acts| - 1];
      assert forall j :: 0 <= j < |before| ==> before[..j] == acts[..j] && before[j] == acts[j];
      StuckForGood(w, before, v, k);
      assert before == acts[..|before|];
      StepRolls(RunActs(w, before), acts[|acts| - 1], v);
    }
  }

  /** An undisturbed rollout can come to its end if and only if v is not reported yet, or every member has
      been told about it. */
  lemma RolloutCanFinish(w: World, v: string)
    requires Rolling(w, v)
    ensures (exists acts :: SmoothRun(w, acts) && Finished(RunActs(w, acts), v))
            <==> (w.cluster.status.version == v ==> AllTold(w.slots, v))
  {
    if Attended(w, v) {
      var acts := Finishing(w, v);
    } else {
      var k :| 0 <= k < |w.slots| && Waiting(w.slots[k], v);
      forall acts | SmoothRun(w, acts)
        ensures !Finished(RunActs(w, acts), v)
      {
        StuckForGood(w, acts, v, k);
      }
    }
  }
}
