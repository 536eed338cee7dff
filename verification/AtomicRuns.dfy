/** Runs in which every reconcile is one uninterrupted step, between moves of the environment. */

module AtomicRuns {
  import opened Api
  import opened Etcd
  import opened Objects
  import opened Topology
  import opened MemberController
  import opened ClusterController

  datatype Act = ClusterAct(prepared: bool) | MemberAct(i: nat) | EnvAct(e: EnvStep)

  function ApplyAct(w: World, act: Act): World {
    match act
    case ClusterAct(prepared) => ReconcileCluster(w, prepared)
    case MemberAct(i) => if i < |w.slots| then ReconcileMember(w, i) else w
    case EnvAct(e) => Env(w, e)
  }

  function RunActs(w: World, acts: seq<Act>): World {
    if acts == [] then w else ApplyAct(RunActs(w, acts[..|acts| - 1]), acts[|acts| - 1])
  }

  lemma {:induction false} ActsAppend(w: World, a: seq<Act>, b: seq<Act>)
    ensures RunActs(w, a + b) == RunActs(RunActs(w, a), b)
  {
    hide ApplyAct;
    if b == [] {
      assert a + b == a;
    } else {
      var before, act := b[..|b| - 1], b[|b| - 1];
      ActsAppend(w, a, before);
      var all := a + b;
      assert all[..|all| - 1] == a + before && all[|all| - 1] == act;
    }
  }

  lemma OneAct(w: World, act: Act)
    ensures RunActs(w, [act]) == ApplyAct(w, act)
  {
    assert RunActs(w, [act][..0]) == w;
  }

  lemma LastAct(w: World, acts: seq<Act>, act: Act)
    ensures RunActs(w, acts + [act]) == ApplyAct(RunActs(w, acts), act)
  {
    ActsAppend(w, acts, [act]);
    OneAct(RunActs(w, acts), act);
  }

  lemma ActsFromFirst(w: World, act: Act, acts: seq<Act>)
    ensures RunActs(w, [act] + acts) == RunActs(ApplyAct(w, act), acts)
  {
    ActsAppend(w, [act], acts);
    OneAct(w, act);
  }

  // ----- the working copy during an uninterrupted reconcile

  /** No write since the last read: the copy differs from the stored member in its status only. */
  predicate UpToDate(v: View) {
    v.mem.resourceVersion == v.slot.member.resourceVersion && v.mem.spec == v.slot.member.spec
  }

  lemma RepairUpToDate(i: nat, v: View)
    requires UpToDate(v)
    ensures UpToDate(Repair(i, v).view)
    ensures !Repair(i, v).stop ==>
      var r := Repair(i, v).view;
      r.mem == r.slot.member && r.mem.status.phase == Recreating && !r.mem.spec.broken && r.slot.pod.None?
    ensures Repair(i, v).stop ==> Repair(i, v).view.mem == v.mem && Repair(i, v).view.slot.member == v.slot.member
  {
  }

  lemma ForwardKeepsSpec(v: View, now: Time)
    ensures var r := Forward(v, now);
            r.slot.member == v.slot.member && r.mem.spec == v.mem.spec && r.mem.resourceVersion == v.mem.resourceVersion
  {
  }

  lemma StagesUpToDate(i: nat, v: View, now: Time)
    requires UpToDate(v)
    ensures UpToDate(Stages(i, v, now))
  {
    ForwardKeepsSpec(v, now);
    if v.mem.spec.broken {
      RepairUpToDate(i, v);
      ForwardKeepsSpec(Repair(i, v).view, now);
    }
  }

  // ----- what version a pod runs

  function PodVersion(m: Member): string {
    if m.status.phase == Running then m.status.version else m.spec.version
  }

  /** A Running member's pod runs the reported version, any other member's pod the desired one. */
  predicate TrueVersion(s: Slot) {
    s.pod.Some? ==> s.pod.value.version == PodVersion(s.member)
  }

  predicate ViewTrue(v: View) {
    UpToDate(v) && (v.slot.pod.Some? ==> v.slot.pod.value.version == PodVersion(v.mem))
  }

  lemma ForwardTrue(v: View, now: Time)
    requires ViewTrue(v)
    ensures ViewTrue(Forward(v, now))
  {
  }

  lemma MemberTrue(i: nat, slot: Slot, etcd: Membership, now: Time)
    requires TrueVersion(slot)
    ensures TrueVersion(Reconcile(i, slot, etcd, now).0)
  {
    var v := View(slot.member, slot, etcd);
    if v.mem.spec.broken {
      RepairUpToDate(i, v);
      var repair := Repair(i, v);
      if repair.stop {
        assert ViewTrue(repair.view);
      } else {
        ForwardTrue(repair.view, now);
      }
    } else {
      ForwardTrue(v, now);
    }
    assert ViewTrue(Stages(i, v, now));
  }

  predicate AllServing(slots: seq<Slot>, n: nat) {
    forall k :: 0 <= k < n && k < |slots| ==>
      slots[k].member.status.phase == Running || slots[k].member.status.phase == Updating
  }

  predicate AllTrue(slots: seq<Slot>) {
    forall k :: 0 <= k < |slots| ==> TrueVersion(slots[k])
  }

  lemma {:induction false} UpdateTrue(c: Cluster, slots: seq<Slot>, i: nat)
    requires Count(c.spec.size) <= |slots| && AllServing(slots, Count(c.spec.size)) && AllTrue(slots)
    ensures AllTrue(UpdateFrom(c, slots, i).slots)
    decreases Count(c.spec.size) - i
  {
    if i < Count(c.spec.size) {
      var m := slots[i].member;
      if !m.IsCreating() && m.status.phase != Updating && c.spec.version == m.spec.version {
        if c.status.certificateExpires || m.spec.certificateUpdate {
          UpdateTrue(c, slots[i := Rotate(slots[i])], i + 1);
        } else {
          UpdateTrue(c, slots, i + 1);
        }
      }
    }
  }

  lemma RunningServes(c: Cluster, slots: seq<Slot>)
    requires Count(c.spec.size) <= |slots|
    ensures Assess(c, Members(slots[..Count(c.spec.size)])).status.phase == ClusterRunning <==>
            AllServing(slots, Count(c.spec.size))
  {
    var ms := Members(slots[..Count(c.spec.size)]);
    NoneCounted(ms);
    assert forall k :: 0 <= k < |ms| ==> ms[k] == slots[k].member;
  }

  lemma ClusterTrue(w: World, prepared: bool)
    requires AllTrue(w.slots)
    ensures AllTrue(ReconcileCluster(w, prepared).slots)
  {
    if prepared {
      var c0 := Opened(w.cluster);
      var n := Count(c0.spec.size);
      var slots := EnsureSlots(c0, w.slots, n);
      forall k | 0 <= k < |slots|
        ensures TrueVersion(slots[k])
      {
        EnsureSlotsAt(c0, w.slots, n, k);
      }
      var c := Assess(c0, Members(slots[..n]));
      RunningServes(c0, slots);
      if c.ShouldUpdate() {
        UpdateTrue(c, slots, 0);
      }
    }
  }

  /** In every state of every run an existing pod's image is the one its member's phase says. */
  lemma {:induction false} VersionTruth(w: World, acts: seq<Act>)
    requires Fresh(w)
    ensures AllTrue(RunActs(w, acts).slots)
  {
    if acts != [] {
      var before, act := acts[..|acts| - 1], acts[|acts| - 1];
      VersionTruth(w, before);
      var u := RunActs(w, before);
      match act
      case ClusterAct(prepared) => ClusterTrue(u, prepared);
      case MemberAct(i) =>
        if i < |u.slots| {
          MemberTrue(i, u.slots[i], u.etcd, u.now);
        }
      case EnvAct(_) =>
    }
  }

  // ----- the end of a rollout

  /** The members that a reconcile reads, and its working copy after the classification. */
  function Present(w: World): (slots: seq<Slot>)
    ensures |slots| >= Count(w.cluster.spec.size)
  {
    EnsureSlots(Opened(w.cluster), w.slots, Count(w.cluster.spec.size))
  }

  function Assessed(w: World): Cluster {
    Assess(Opened(w.cluster), Members(Present(w)[..Count(w.cluster.spec.size)]))
  }

  lemma PresentAt(w: World, k: nat)
    requires k < |Present(w)|
    ensures Present(w)[k] == if k < |w.slots| then w.slots[k] else NewSlot(GetMember(Opened(w.cluster), k))
  {
    EnsureSlotsAt(Opened(w.cluster), w.slots, Count(w.cluster.spec.size), k);
  }

  /** The reconcile enters the update loop, and the loop runs to its end. */
  predicate Finishes(w: World) {
    Assessed(w).ShouldUpdate() && !UpdateFrom(Assessed(w), Present(w), 0).stop
  }

  predicate UpdatedTo(m: Member, version: string) {
    m.status.phase == Running && m.spec.version == version && m.status.version == version
    && !m.spec.certificateUpdate && !m.status.certificateExpires
  }

  predicate ReachedVersion(m: Member, version: string) {
    m.status.phase == Running && m.spec.version == version && m.status.version == version
    && !m.status.certificateExpires
  }

  /** All members exist, have reached the version and have their expiry flag down, and there is something to
      report: the version, or that a request has been met. */
  predicate ReadyToFinish(w: World) {
    var n := Count(w.cluster.spec.size);
    n <= |w.slots|
    && (forall k :: 0 <= k < n ==> ReachedVersion(w.slots[k].member, w.cluster.spec.version))
    && (w.cluster.status.version != w.cluster.spec.version
        || exists k :: 0 <= k < n && w.slots[k].member.spec.certificateUpdate)
  }

  lemma {:induction false} LoopEnds(c: Cluster, slots: seq<Slot>, i: nat)
    requires Count(c.spec.size) <= |slots| && AllServing(slots, Count(c.spec.size))
    requires c.status.certificateExpires
             || forall k :: i <= k < Count(c.spec.size) ==> !slots[k].member.status.certificateExpires
    ensures var r := UpdateFrom(c, slots, i);
            && (forall k :: 0 <= k < i && k < |slots| ==> r.slots[k] == slots[k])
            && (!r.stop <==>
                  forall k :: i <= k < Count(c.spec.size) ==> ReachedVersion(slots[k].member, c.spec.version))
            && (!r.stop ==>
                  r.cluster == c.(status := c.status.(phase := ClusterRunning, certificateExpires := false))
                  && forall k :: i <= k < Count(c.spec.size) ==> UpdatedTo(r.slots[k].member, c.spec.version))
    decreases Count(c.spec.size) - i
  {
    if i < Count(c.spec.size) {
      var m := slots[i].member;
      if !m.IsCreating() && m.status.phase != Updating && c.spec.version == m.spec.version {
        if c.status.certificateExpires || m.spec.certificateUpdate {
          var rotated := slots[i := Rotate(slots[i])];
          LoopEnds(c, rotated, i + 1);
          assert forall k :: i < k < |slots| ==> rotated[k] == slots[k];
          assert ReachedVersion(m, c.spec.version)
            <==> !m.status.certificateExpires && c.spec.version == m.status.version;
        } else {
          LoopEnds(c, slots, i + 1);
          assert ReachedVersion(m, c.spec.version) <==> c.spec.version == m.status.version;
        }
      } else {
        assert !ReachedVersion(m, c.spec.version);
      }
    }
  }

  lemma NoFlagNoExpiry(ms: seq<Member>, k: nat)
    requires !AnyExpiry(ms) && k < |ms|
    ensures !ms[k].status.certificateExpires && !ms[k].spec.certificateUpdate
  {
  }

  lemma LoopEndsOn(w: World)
    requires AllServing(Present(w), Count(w.cluster.spec.size))
    ensures var n := Count(w.cluster.spec.size);
            var v := w.cluster.spec.version;
            var r := UpdateFrom(Assessed(w), Present(w), 0);
            && (!r.stop <==> forall k :: 0 <= k < n ==> ReachedVersion(Present(w)[k].member, v))
            && (!r.stop ==>
                  r.cluster.status == Assessed(w).status.(phase := ClusterRunning, certificateExpires := false)
                  && r.cluster.spec == w.cluster.spec && r.cluster.resourceVersion == w.cluster.resourceVersion
                  && forall k :: 0 <= k < n ==> UpdatedTo(r.slots[k].member, v))
  {
    var n := Count(w.cluster.spec.size);
    var ms := Members(Present(w)[..n]);
    if !Assessed(w).status.certificateExpires {
      forall k | 0 <= k < n
        ensures !Present(w)[k].member.status.certificateExpires
      {
        NoFlagNoExpiry(ms, k);
      }
    }
    LoopEnds(Assessed(w), Present(w), 0);
  }

  lemma ReadyIsServing(w: World)
    requires ReadyToFinish(w)
    ensures AllServing(Present(w), Count(w.cluster.spec.size)) && Assessed(w).ShouldUpdate()
    ensures forall k :: 0 <= k < Count(w.cluster.spec.size) ==> Present(w)[k] == w.slots[k]
  {
    var n := Count(w.cluster.spec.size);
    forall k | 0 <= k < n
      ensures Present(w)[k] == w.slots[k]
    {
      PresentAt(w, k);
    }
    RunningServes(Opened(w.cluster), Present(w));
    var ms := Members(Present(w)[..n]);
    if k :| 0 <= k < n && w.slots[k].member.spec.certificateUpdate {
      assert ms[k].spec.certificateUpdate;
    }
  }

  /** The update loop is entered and runs to its end if and only if every member has reached the version with
      its flag down, and the version is not reported yet or a request is pending. */
  lemma FinishesExactly(w: World)
    ensures Finishes(w) <==> ReadyToFinish(w)
  {
    var n := Count(w.cluster.spec.size);
    RunningServes(Opened(w.cluster), Present(w));
    if ReadyToFinish(w) {
      ReadyIsServing(w);
      LoopEndsOn(w);
    }
    if Finishes(w) {
      LoopEndsOn(w);
      forall k | 0 <= k < n
        ensures k < |w.slots| && Present(w)[k] == w.slots[k]
      {
        PresentAt(w, k);
        assert ReachedVersion(Present(w)[k].member, w.cluster.spec.version);
      }
      ExpiryIsRequest(w);
    }
  }

  lemma ExpiryIsRequest(w: World)
    requires var n := Count(w.cluster.spec.size);
             n <= |w.slots| && forall k :: 0 <= k < n ==>
               Present(w)[k] == w.slots[k] && !w.slots[k].member.status.certificateExpires
    ensures Assessed(w).status.certificateExpires ==>
            exists k :: 0 <= k < Count(w.cluster.spec.size) && w.slots[k].member.spec.certificateUpdate
  {
    var ms := Members(Present(w)[..Count(w.cluster.spec.size)]);
    if k :| 0 <= k < |ms| && (ms[k].status.certificateExpires || ms[k].spec.certificateUpdate) {
      assert w.slots[k].member.spec.certificateUpdate;
    }
  }

  /** When the update loop ends, every member is Running, has reached the cluster's version and has no
      certificate business left, so reporting the version and clearing the cluster's flag loses nothing. */
  lemma FinishingIsSound(w: World)
    requires ReadyToFinish(w)
    ensures var t := ReconcileCluster(w, true);
            && (forall k :: 0 <= k < Count(w.cluster.spec.size) ==>
                  k < |t.slots| && UpdatedTo(t.slots[k].member, w.cluster.spec.version))
            && t.cluster.status == ClusterStatus(ClusterRunning, w.cluster.spec.version, false)
  {
    ReadyIsServing(w);
    RunningServes(Opened(w.cluster), Present(w));
    LoopEndsOn(w);
    assert Assessed(w).status.phase == ClusterRunning;
  }

  // ----- when a version is reported

  lemma {:induction false} LoopKeepsVersion(c: Cluster, slots: seq<Slot>, i: nat)
    requires Count(c.spec.size) <= |slots|
    ensures var r := UpdateFrom(c, slots, i).cluster;
            r.status.version == c.status.version && r.spec == c.spec && r.resourceVersion == c.resourceVersion
    decreases Count(c.spec.size) - i
  {
    if i < Count(c.spec.size) {
      LoopKeepsVersion(c, slots[i := Rotate(slots[i])], i + 1);
      LoopKeepsVersion(c, slots, i + 1);
    }
  }

  /** A failed member has passed the grace period and nobody stands in the way of its repair. */
  predicate RepairDue(ms: seq<Member>, now: Time) {
    (forall k :: 0 <= k < |ms| ==> !Blocks(ms[k]))
    && exists k :: 0 <= k < |ms| && ms[k].status.phase == Failed && ms[k].status.failedTime < now - MINOR_FAILED_TIMEOUT
  }

  lemma RepairWaits(slots: seq<Slot>, size: int, now: Time)
    requires Count(size) <= |slots|
    ensures RepairMembers(slots, size, now).1 <==> !RepairDue(Members(slots[..Count(size)]), now)
    ensures var r := RepairMembers(slots, size, now).0;
            |r| == |slots| && forall k :: 0 <= k < |r| ==> r[k].member.spec.version == slots[k].member.spec.version
  {
    OldestIsLongestFailed(Members(slots[..Count(size)]), now - MINOR_FAILED_TIMEOUT);
  }

  /** When a reconcile reports a version that was not reported before. Only in a cluster that is Running does
      this say anything about the members; in a cluster that is Creating or Failed it always happens, and in
      a minor failure whenever a repair is due, though no member is told about the version. */
  lemma ReportedExactly(w: World)
    requires w.cluster.status.version != w.cluster.spec.version
    ensures var t := ReconcileCluster(w, true);
            var phase := Assessed(w).status.phase;
            && (t.cluster.status.version == w.cluster.spec.version <==>
                  match phase
                  case ClusterRunning => ReadyToFinish(w)
                  case ClusterMinorFailure => RepairDue(Members(Present(w)[..Count(w.cluster.spec.size)]), w.now)
                  case _ => true)
            && (phase != ClusterRunning ==>
                  |t.slots| == |Present(w)|
                  && forall k :: 0 <= k < |t.slots| ==>
                       t.slots[k].member.spec.version == Present(w)[k].member.spec.version)
  {
    RepairWaits(Present(w), w.cluster.spec.size, w.now);
    FinishesExactly(w);
    LoopKeepsVersion(Assessed(w), Present(w), 0);
  }

  // ----- a certificate request

  lemma {:induction false} LoopRequests(c: Cluster, slots: seq<Slot>, i: nat, k: nat)
    requires Count(c.spec.size) <= |slots| && AllServing(slots, Count(c.spec.size)) && k < |slots|
    requires !slots[k].member.spec.certificateUpdate
    requires UpdateFrom(c, slots, i).slots[k].member.spec.certificateUpdate
    ensures var r := UpdateFrom(c, slots, i).slots;
            && i <= k < Count(c.spec.size) && c.status.certificateExpires && r[k].member.status.certificateExpires
            && (forall j :: 0 <= j < i && j < |r| ==> r[j] == slots[j])
            && forall j :: i <= j < k ==> UpdatedTo(r[j].member, c.spec.version)
    decreases Count(c.spec.size) - i
  {
    if i < Count(c.spec.size) {
      var m := slots[i].member;
      if !m.IsCreating() && m.status.phase != Updating && c.spec.version == m.spec.version {
        if c.status.certificateExpires || m.spec.certificateUpdate {
          if !m.status.certificateExpires && c.spec.version == m.status.version {
            LoopRequests(c, slots[i := Rotate(slots[i])], i + 1, k);
          }
        } else if c.spec.version == m.status.version {
          LoopRequests(c, slots, i + 1, k);
        }
      }
    }
  }

  /** A member is asked to take a new certificate only when its flag is up and every lower member is Running,
      so not Updating, at the cluster's version, with no request and no flag. */
  lemma RequestsInOrder(w: World, prepared: bool, k: nat)
    requires k < |w.slots| && !w.slots[k].member.spec.certificateUpdate
    requires k < |ReconcileCluster(w, prepared).slots|
    requires ReconcileCluster(w, prepared).slots[k].member.spec.certificateUpdate
    ensures var t := ReconcileCluster(w, prepared);
            t.slots[k].member.status.certificateExpires
            && forall j :: 0 <= j < k ==> UpdatedTo(t.slots[j].member, w.cluster.spec.version)
  {
    var c0 := Opened(w.cluster);
    var n := Count(c0.spec.size);
    var slots := EnsureSlots(c0, w.slots, n);
    EnsureSlotsAt(c0, w.slots, n, k);
    var c := Assess(c0, Members(slots[..n]));
    RunningServes(c0, slots);
    if c.ShouldUpdate() {
      LoopRequests(c, slots, 0, k);
    }
  }

  // ----- since when a member has failed

  lemma ForwardFailure(v: View, now: Time)
    ensures var r := Forward(v, now).mem.status;
            r.phase == Failed ==>
              (v.mem.status.phase == Failed && r.failedTime == v.mem.status.failedTime)
              || (v.mem.status.phase == Running && r.failedTime == now)
  {
  }

  lemma MemberFailure(i: nat, slot: Slot, etcd: Membership, now: Time)
    ensures var m, r := slot.member, Reconcile(i, slot, etcd, now).0.member;
            r.status.phase == Failed ==>
              (m.status.phase == Failed && r.status.failedTime == m.status.failedTime)
              || (m.status.phase == Running && r.status.failedTime == now)
  {
    var v := View(slot.member, slot, etcd);
    StagesUpToDate(i, v, now);
    ForwardFailure(v, now);
    if v.mem.spec.broken {
      RepairUpToDate(i, v);
      ForwardFailure(Repair(i, v).view, now);
    }
  }

  lemma {:induction false} UpdateStatuses(c: Cluster, slots: seq<Slot>, i: nat)
    requires Count(c.spec.size) <= |slots|
    ensures var r := UpdateFrom(c, slots, i).slots;
            forall k :: 0 <= k < |r| ==> r[k].member.status == slots[k].member.status
                                         && r[k].member.spec.broken == slots[k].member.spec.broken
    decreases Count(c.spec.size) - i
  {
    if i < Count(c.spec.size) {
      var m := slots[i].member;
      if !m.IsCreating() && m.status.phase != Updating && c.spec.version == m.spec.version {
        if c.status.certificateExpires || m.spec.certificateUpdate {
          UpdateStatuses(c, slots[i := Rotate(slots[i])], i + 1);
        } else {
          UpdateStatuses(c, slots, i + 1);
        }
      }
    }
  }

  lemma ClusterStatuses(w: World, prepared: bool, k: nat)
    requires k < |ReconcileCluster(w, prepared).slots|
    ensures |w.slots| <= |ReconcileCluster(w, prepared).slots|
    ensures ReconcileCluster(w, prepared).slots[k].member.status
            == if k < |w.slots| then w.slots[k].member.status else NO_STATUS
  {
    if prepared {
      var c0 := Opened(w.cluster);
      var n := Count(c0.spec.size);
      var slots := EnsureSlots(c0, w.slots, n);
      EnsureSlotsAt(c0, w.slots, n, k);
      var c := Assess(c0, Members(slots[..n]));
      if c.ShouldUpdate() {
        UpdateStatuses(c, slots, 0);
      }
    }
  }

  predicate FailedAt(w: World, i: nat, since: Time) {
    i < |w.slots| && w.slots[i].member.status.phase == Failed && w.slots[i].member.status.failedTime == since
  }

  /** Member i entered Failed at its failedTime, in act k, and has been Failed ever since. */
  ghost predicate FailedSince(w: World, acts: seq<Act>, i: nat, k: nat) {
    k < |acts|
    && (var u := RunActs(w, acts[..k]);
        i < |u.slots| && u.slots[i].member.status.phase == Running && acts[k] == MemberAct(i)
        && forall j :: k < j <= |acts| ==> FailedAt(RunActs(w, acts[..j]), i, u.now))
  }

  lemma SinceExtends(w: World, before: seq<Act>, act: Act, i: nat, k: nat)
    requires FailedSince(w, before, i, k)
    requires FailedAt(RunActs(w, before + [act]), i, RunActs(w, before[..k]).now)
    ensures FailedSince(w, before + [act], i, k)
  {
    var acts := before + [act];
    assert acts[..k] == before[..k];
    forall j | k < j <= |acts|
      ensures FailedAt(RunActs(w, acts[..j]), i, RunActs(w, before[..k]).now)
    {
      assert acts[..j] == if j < |acts| then before[..j] else acts;
    }
  }

  lemma SinceStarts(w: World, before: seq<Act>, act: Act, i: nat)
    requires var u := RunActs(w, before);
             i < |u.slots| && u.slots[i].member.status.phase == Running && act == MemberAct(i)
             && FailedAt(RunActs(w, before + [act]), i, u.now)
    ensures FailedSince(w, before + [act], i, |before|)
  {
    var acts := before + [act];
    assert acts[..|before|] == before;
    forall j | |before| < j <= |acts|
      ensures FailedAt(RunActs(w, acts[..j]), i, RunActs(w, before).now)
    {
      assert acts[..j] == acts;
    }
  }

  lemma ActFailure(u: World, act: Act, i: nat)
    requires i < |ApplyAct(u, act).slots| && ApplyAct(u, act).slots[i].member.status.phase == Failed
    ensures i < |u.slots|
    ensures var m, r := u.slots[i].member, ApplyAct(u, act).slots[i].member;
            (m.status.phase == Failed && r.status.failedTime == m.status.failedTime)
            || (m.status.phase == Running && r.status.failedTime == u.now && act == MemberAct(i))
  {
    match act
    case ClusterAct(prepared) => ClusterStatuses(u, prepared, i);
    case MemberAct(k) =>
      if k < |u.slots| {
        MemberFailure(k, u.slots[k], u.etcd, u.now);
      }
    case EnvAct(_) =>
  }

  lemma {:induction false} FailureHistory(w: World, acts: seq<Act>, i: nat) returns (k: nat)
    requires w.slots == []
    requires var t := RunActs(w, acts); i < |t.slots| && t.slots[i].member.status.phase == Failed
    ensures FailedSince(w, acts, i, k)
    ensures RunActs(w, acts).slots[i].member.status.failedTime == RunActs(w, acts[..k]).now
  {
    var before, act := acts[..|acts| - 1], acts[|acts| - 1];
    var u := RunActs(w, before);
    ActFailure(u, act, i);
    assert acts == before + [act];
    if u.slots[i].member.status.phase == Failed {
      k := FailureHistory(w, before, i);
      assert acts[..k] == before[..k];
      SinceExtends(w, before, act, i, k);
    } else {
      k := |before|;
      SinceStarts(w, before, act, i);
    }
  }

  predicate ActMarks(u: World, act: Act, i: nat) {
    i < |u.slots| && i < |ApplyAct(u, act).slots|
    && !u.slots[i].member.spec.broken && ApplyAct(u, act).slots[i].member.spec.broken
  }

  lemma MemberMarks(i: nat, slot: Slot, etcd: Membership, now: Time)
    requires !slot.member.spec.broken
    ensures !Reconcile(i, slot, etcd, now).0.member.spec.broken
  {
  }

  lemma RepairMarks(slots: seq<Slot>, size: int, now: Time, i: nat)
    requires |slots| == Count(size) && i < |slots| && !slots[i].member.spec.broken
    requires RepairMembers(slots, size, now).0[i].member.spec.broken
    ensures IsLongestFailed(Members(slots), now - MINOR_FAILED_TIMEOUT, i)
  {
    assert slots[..Count(size)] == slots;
    OldestIsLongestFailed(Members(slots), now - MINOR_FAILED_TIMEOUT);
  }

  lemma ClusterMarks(u: World, prepared: bool, i: nat)
    requires ActMarks(u, ClusterAct(prepared), i) && |u.slots| <= Count(u.cluster.spec.size)
    ensures prepared
    ensures var slots := EnsureSlots(Opened(u.cluster), u.slots, Count(u.cluster.spec.size));
            IsLongestFailed(Members(slots), u.now - MINOR_FAILED_TIMEOUT, i)
  {
    if prepared {
      var c0 := Opened(u.cluster);
      var n := Count(c0.spec.size);
      var slots := EnsureSlots(c0, u.slots, n);
      EnsureSlotsAt(c0, u.slots, n, i);
      var c := Assess(c0, Members(slots[..n]));
      if c.ShouldUpdate() {
        UpdateStatuses(c, slots, 0);
      } else if c.status.phase == ClusterMinorFailure {
        RepairMarks(slots, c.spec.size, u.now, i);
      }
    }
  }

  lemma ActKeepsSize(u: World, act: Act)
    requires |u.slots| <= Count(u.cluster.spec.size)
    ensures var t := ApplyAct(u, act);
            t.cluster.spec.size == u.cluster.spec.size && |t.slots| <= Count(u.cluster.spec.size)
  {
  }

  lemma {:induction false} ActsKeepSize(w: World, acts: seq<Act>)
    requires Fresh(w)
    ensures var t := RunActs(w, acts);
            t.cluster.spec.size == w.cluster.spec.size && |t.slots| <= Count(w.cluster.spec.size)
  {
    if acts != [] {
      ActsKeepSize(w, acts[..|acts| - 1]);
      ActKeepsSize(RunActs(w, acts[..|acts| - 1]), acts[|acts| - 1]);
    }
  }

  /** A member that is marked broken has been Failed without a break, in every state since the act in which
      it left Running, for more than five minutes, and no Failed member has been so for longer; of those
      that failed at the same time the one with the lowest ordinal is taken. */
  lemma LongestFailedIsRepaired(w: World, acts: seq<Act>, act: Act, i: nat) returns (k: nat)
    requires Fresh(w) && ActMarks(RunActs(w, acts), act, i)
    ensures FailedSince(w, acts, i, k)
    ensures var t := RunActs(w, acts);
            && RunActs(w, acts[..k]).now + 300 < t.now
            && forall j :: 0 <= j < |t.slots| && t.slots[j].member.status.phase == Failed ==>
                 if j < i then t.slots[i].member.status.failedTime < t.slots[j].member.status.failedTime
                 else t.slots[i].member.status.failedTime <= t.slots[j].member.status.failedTime
  {
    var t := RunActs(w, acts);
    ActsKeepSize(w, acts);
    match act
    case MemberAct(m) =>
      MemberMarks(m, t.slots[m], t.etcd, t.now);
      assert false;
    case EnvAct(_) =>
      assert false;
    case ClusterAct(prepared) =>
      ClusterMarks(t, prepared, i);
      var slots := EnsureSlots(Opened(t.cluster), t.slots, Count(t.cluster.spec.size));
      forall j | 0 <= j < |t.slots|
        ensures slots[j] == t.slots[j]
      {
        EnsureSlotsAt(Opened(t.cluster), t.slots, Count(t.cluster.spec.size), j);
      }
      var ms := Members(slots);
      assert forall j :: 0 <= j < |t.slots| ==> ms[j] == t.slots[j].member;
      k := FailureHistory(w, acts, i);
  }
}
