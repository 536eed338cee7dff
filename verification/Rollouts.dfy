/** Order of a version rollout over every interleaved run that keeps the cluster's version. */

module Rollouts {
  import opened Api
  import opened Objects
  import opened MemberController
  import opened ClusterController
  import opened Interleaving
  import opened Invariant

  /** The cluster's version is v before and after every one of the steps. */
  ghost predicate Steady(s: Sys, steps: seq<Step>, v: string) {
    forall k :: 0 <= k <= |steps| ==> Run(s, steps[..k]).w.cluster.spec.version == v
  }

  predicate Matched(m: Member) {
    m.spec.version == m.status.version
  }

  predicate AtVersion(m: Member, v: string) {
    m.spec.version == v && m.status.version == v
  }

  predicate AllAt(slots: seq<Slot>, k: nat, v: string) {
    forall j :: 0 <= j < k && j < |slots| ==> AtVersion(slots[j].member, v)
  }

  /** All members exist, none is between versions, and the cluster's worker has not started. */
  predicate Settled(s: Sys, size: int) {
    |s.w.slots| == Count(size) && s.cluster.ClusterIdle?
    && forall k :: 0 <= k < |s.w.slots| ==> Matched(s.w.slots[k].member)
  }

  // ----- the invariant

  predicate InOrder(slots: seq<Slot>, v: string) {
    forall k :: 0 <= k < |slots| && !Matched(slots[k].member) ==>
      slots[k].member.spec.version == v && AllAt(slots, k, v)
  }

  predicate WorkerOk(slots: seq<Slot>, p: ClusterProc, v: string) {
    match p
    case ClusterIdle => true
    case EnsurePass(c, _) => c.spec.version == v
    case RepairPass(c, _, _) => c.spec.version == v
    case BreakWrite(c, _, _) => c.spec.version == v
    case UpdatePass(c, i) => c.spec.version == v && AllAt(slots, i, v)
    case VersionWrite(c, i, m) => c.spec.version == v && AllAt(slots, i, v) && m.spec.version != v
    case RotationWrite(c, i, m) => c.spec.version == v && AllAt(slots, i, v) && m.spec.version == v
    case StatusWrite(_) => true
  }

  ghost predicate RolloutInv(s: Sys, size: int, v: string) {
    Inv(s, size) && |s.w.slots| == Count(size) && InOrder(s.w.slots, v) && WorkerOk(s.w.slots, s.cluster, v)
  }

  /** A step that leaves desired versions alone and moves reported versions only to them. */
  predicate VersionsFollow(a: seq<Slot>, b: seq<Slot>) {
    |a| == |b|
    && forall k :: 0 <= k < |a| ==>
         b[k].member.spec.version == a[k].member.spec.version
         && (b[k].member.status.version == a[k].member.status.version
             || b[k].member.status.version == b[k].member.spec.version)
  }

  lemma FollowKeeps(a: seq<Slot>, b: seq<Slot>, p: ClusterProc, v: string)
    requires VersionsFollow(a, b) && InOrder(a, v) && WorkerOk(a, p, v)
    ensures InOrder(b, v) && WorkerOk(b, p, v)
  {
  }

  lemma MemberCallVersions(i: nat, pc: MemberPc, v: View, now: Time)
    requires SlotOk(v.slot) && ProcOk(v.slot, Busy(pc, v.mem))
    ensures var r := MemberCallAt(i, pc, v, now);
            r.slot.member.spec.version == v.slot.member.spec.version
            && (r.slot.member.status.version == v.slot.member.status.version
                || r.slot.member.status.version == r.slot.member.spec.version)
  {
  }

  lemma MemberStepVersions(s: Sys, step: Step, size: int)
    requires Inv(s, size) && !step.ClusterCall? && !step.ClusterStart?
    ensures VersionsFollow(s.w.slots, Apply(s, step).w.slots)
  {
    if step.MemberCall? && step.i < |s.procs| && s.procs[step.i].Busy? {
      var p := s.procs[step.i];
      assert SlotOk(s.w.slots[step.i]) && ProcOk(s.w.slots[step.i], p);
      MemberCallVersions(step.i, p.pc, View(p.mem, s.w.slots[step.i], s.w.etcd), s.w.now);
    } else if step.Environment? && !step.e.Tick? && !step.e.UserEdit? && !step.e.EtcdStarted? {
      if step.e.i < |s.w.slots| {
        EnvSlotOk(s.w.slots[step.e.i], s.procs[step.e.i], step.e, s.w.now);
      }
    }
  }

  lemma BeginOk(slots: seq<Slot>, c: Cluster, cutoff: Time, read: seq<Member>, now: Time, v: string)
    requires c.spec.version == v
    ensures WorkerOk(slots, EnsureNext(c, read, now), v) && WorkerOk(slots, RepairNext(c, cutoff, read), v)
    ensures WorkerOk(slots, AfterRepair(c), v)
  {
  }

  lemma UpdateReadOk(slots: seq<Slot>, c: Cluster, i: nat, v: string)
    requires i < |slots| && c.spec.version == v && AllAt(slots, i, v)
    ensures WorkerOk(slots, UpdateRead(c, i, slots[i].member), v)
  {
  }

  lemma PassKeeps(s: Sys, size: int, v: string)
    requires RolloutInv(s, size, v)
    requires s.cluster.EnsurePass? || s.cluster.RepairPass? || s.cluster.UpdatePass?
    ensures ClusterCalled(s).w.slots == s.w.slots && WorkerOk(s.w.slots, ClusterCalled(s).cluster, v)
  {
    var c := s.cluster.c;
    if s.cluster.UpdatePass? {
      PresentEnsured(s, c, s.cluster.i);
      UpdateReadOk(s.w.slots, c, s.cluster.i, v);
    } else {
      var read := s.cluster.read;
      PresentEnsured(s, c, |read|);
      var cutoff := if s.cluster.RepairPass? then s.cluster.cutoff else 0;
      BeginOk(s.w.slots, c, cutoff, read + [s.w.slots[|read|].member], s.w.now, v);
    }
  }

  lemma BreakWriteKeeps(s: Sys, size: int, v: string)
    requires RolloutInv(s, size, v) && s.cluster.BreakWrite?
    ensures VersionsFollow(s.w.slots, ClusterCalled(s).w.slots)
    ensures WorkerOk(s.w.slots, ClusterCalled(s).cluster, v)
  {
    var c, read := s.cluster.c, s.cluster.read;
    BeginOk(s.w.slots, c, s.cluster.cutoff, read, s.w.now, v);
    var i := Oldest(read, s.cluster.cutoff).value;
    assert Read(read[i], s.w.slots[i].member);
  }

  lemma RotationWriteKeeps(s: Sys, size: int, v: string)
    requires RolloutInv(s, size, v) && s.cluster.RotationWrite?
    ensures VersionsFollow(s.w.slots, ClusterCalled(s).w.slots)
    ensures WorkerOk(s.w.slots, ClusterCalled(s).cluster, v)
  {
    var c, i, m := s.cluster.c, s.cluster.i, s.cluster.m;
    if Current(s.w.slots, i, m) {
      assert m == s.w.slots[i].member;
      RotatedOk(s.w.slots, c, i, v);
    }
  }

  lemma RotatedOk(slots: seq<Slot>, c: Cluster, i: nat, v: string)
    requires i < |slots| && c.spec.version == v && AllAt(slots, i, v) && slots[i].member.spec.version == v
    ensures WorkerOk(slots, Rotated(c, i, slots[i].member), v)
  {
  }

  lemma VersionWriteKeeps(s: Sys, size: int, v: string)
    requires RolloutInv(s, size, v) && s.cluster.VersionWrite?
    ensures InOrder(ClusterCalled(s).w.slots, v) && ClusterCalled(s).cluster.StatusWrite?
    ensures |ClusterCalled(s).w.slots| == |s.w.slots|
  {
  }

  lemma ClusterCallKeeps(s: Sys, size: int, v: string)
    requires RolloutInv(s, size, v)
    ensures var t := ClusterCalled(s);
            |t.w.slots| == |s.w.slots| && InOrder(t.w.slots, v) && WorkerOk(t.w.slots, t.cluster, v)
  {
    var t := ClusterCalled(s);
    match s.cluster
    case ClusterIdle =>
    case StatusWrite(_) =>
    case VersionWrite(_, _, _) => VersionWriteKeeps(s, size, v);
    case BreakWrite(_, _, _) =>
      BreakWriteKeeps(s, size, v);
      FollowKeeps(s.w.slots, t.w.slots, t.cluster, v);
    case RotationWrite(_, _, _) =>
      RotationWriteKeeps(s, size, v);
      FollowKeeps(s.w.slots, t.w.slots, t.cluster, v);
    case _ => PassKeeps(s, size, v);
  }

  lemma StepKeeps(s: Sys, step: Step, size: int, v: string)
    requires RolloutInv(s, size, v) && s.w.cluster.spec.version == v
    ensures RolloutInv(Apply(s, step), size, v)
  {
    StepInv(s, step, size);
    if step.ClusterCall? {
      ClusterCallKeeps(s, size, v);
    } else if step.ClusterStart? {
      BeginOk(s.w.slots, Opened(s.w.cluster), 0, [], s.w.now, v);
    } else {
      MemberStepVersions(s, step, size);
      FollowKeeps(s.w.slots, Apply(s, step).w.slots, s.cluster, v);
    }
  }

  lemma {:induction false} SteadyRun(s: Sys, steps: seq<Step>, size: int, v: string)
    requires Inv(s, size) && Settled(s, size) && Steady(s, steps, v)
    ensures RolloutInv(Run(s, steps), size, v)
  {
    if steps != [] {
      var before := steps[..|steps| - 1];
      assert forall k :: 0 <= k <= |before| ==> before[..k] == steps[..k];
      SteadyRun(s, before, size, v);
      assert before == steps[..|before|];
      StepKeeps(Run(s, before), steps[|steps| - 1], size, v);
    }
  }

  // ----- results

  /** At most one member is between versions, whatever fails or is repaired meanwhile. */
  lemma OneBetweenVersions(s: Sys, steps: seq<Step>, size: int, v: string, i: nat, j: nat)
    requires Inv(s, size) && Settled(s, size) && Steady(s, steps, v)
    ensures var slots := Run(s, steps).w.slots;
            i < |slots| && j < |slots| && !Matched(slots[i].member) && !Matched(slots[j].member) ==> i == j
  {
    SteadyRun(s, steps, size, v);
  }

  predicate Bumps(s: Sys, step: Step, i: nat) {
    var t := Apply(s, step);
    i < |s.w.slots| && i < |t.w.slots| && s.w.slots[i].member.spec.version != t.w.slots[i].member.spec.version
  }

  lemma BumpStep(s: Sys, step: Step, size: int, v: string, i: nat)
    requires RolloutInv(s, size, v) && s.w.cluster.spec.version == v && Bumps(s, step, i)
    ensures AllAt(s.w.slots, i, v) && s.w.slots[i].member.spec.version != v
    ensures Apply(s, step).w.slots[i].member.spec.version == v
    ensures !s.w.slots[i].member.spec.broken
    ensures forall k :: 0 <= k < |s.w.slots| ==> Matched(s.w.slots[k].member)
  {
    if step.ClusterCall? {
      if s.cluster.EnsurePass? || s.cluster.RepairPass? || s.cluster.UpdatePass? {
        var k := if s.cluster.UpdatePass? then s.cluster.i else |s.cluster.read|;
        PresentEnsured(s, s.cluster.c, k);
      }
    } else if !step.ClusterStart? {
      MemberStepVersions(s, step, size);
    }
  }

  /** A desired version changes only to v, only for a member that no repair is marked for, and only
      when all lower members have reached v and nobody is between versions. */
  lemma BumpsInOrder(s: Sys, steps: seq<Step>, step: Step, size: int, v: string, i: nat)
    requires Inv(s, size) && Settled(s, size) && Steady(s, steps, v) && Bumps(Run(s, steps), step, i)
    ensures var t := Run(s, steps);
            && AllAt(t.w.slots, i, v) && t.w.slots[i].member.spec.version != v
            && Apply(t, step).w.slots[i].member.spec.version == v
            && !t.w.slots[i].member.spec.broken
            && forall k :: 0 <= k < |t.w.slots| ==> Matched(t.w.slots[k].member)
  {
    SteadyRun(s, steps, size, v);
    assert steps[..|steps|] == steps;
    BumpStep(Run(s, steps), step, size, v, i);
  }

  lemma {:induction false} StaysAt(s: Sys, steps: seq<Step>, k: nat, size: int, v: string, i: nat)
    requires Inv(s, size) && Settled(s, size) && Steady(s, steps, v) && k <= |steps|
    requires i < Count(size) && i < |Run(s, steps[..k]).w.slots|
    requires Run(s, steps[..k]).w.slots[i].member.spec.version == v
    ensures i < |Run(s, steps).w.slots| && Run(s, steps).w.slots[i].member.spec.version == v
    decreases |steps|
  {
    if k == |steps| {
      assert steps[..k] == steps;
    } else {
      var before, step := steps[..|steps| - 1], steps[|steps| - 1];
      assert forall j :: 0 <= j <= |before| ==> before[..j] == steps[..j];
      StaysAt(s, before, k, size, v, i);
      SteadyRun(s, before, size, v);
      SteadyRun(s, steps, size, v);
      assert before == steps[..|before|];
      if Bumps(Run(s, before), step, i) {
        BumpStep(Run(s, before), step, size, v, i);
      }
    }
  }

  /** After a bump of i, and from then on, everybody up to i has been told about v. */
  lemma ToldAfterBump(s: Sys, steps: seq<Step>, a: nat, size: int, v: string, i: nat, j: nat)
    requires Inv(s, size) && Settled(s, size) && Steady(s, steps, v) && a < |steps| && j <= i
    requires Bumps(Run(s, steps[..a]), steps[a], i)
    ensures j < |Run(s, steps).w.slots| && Run(s, steps).w.slots[j].member.spec.version == v
  {
    SteadyPrefix(s, steps, a, v);
    SteadyRun(s, steps[..a], size, v);
    AfterBump(Run(s, steps[..a]), steps[a], size, v, i, j);
    assert steps[..a + 1][..a] == steps[..a] && steps[..a + 1][a] == steps[a];
    StaysAt(s, steps, a + 1, size, v, j);
  }

  /** Members are bumped in strictly growing order: a bump of i that comes before a bump of j has i < j. */
  lemma BumpsGrow(s: Sys, steps: seq<Step>, a: nat, b: nat, size: int, v: string, i: nat, j: nat)
    requires Inv(s, size) && Settled(s, size) && Steady(s, steps, v) && a < b < |steps|
    requires Bumps(Run(s, steps[..a]), steps[a], i) && Bumps(Run(s, steps[..b]), steps[b], j)
    ensures i < j
  {
    var before := steps[..b];
    SteadyPrefix(s, steps, b, v);
    BumpsInOrder(s, before, steps[b], size, v, j);
    if j <= i {
      assert before[..a] == steps[..a] && before[a] == steps[a];
      ToldAfterBump(s, before, a, size, v, i, j);
    }
  }

  lemma SteadyPrefix(s: Sys, steps: seq<Step>, k: nat, v: string)
    requires Steady(s, steps, v) && k <= |steps|
    ensures Steady(s, steps[..k], v)
  {
    assert forall j :: 0 <= j <= k ==> steps[..k][..j] == steps[..j];
  }

  lemma AfterBump(s: Sys, step: Step, size: int, v: string, i: nat, j: nat)
    requires RolloutInv(s, size, v) && s.w.cluster.spec.version == v && Bumps(s, step, i) && j <= i
    ensures var t := Apply(s, step);
            j < |t.w.slots| && t.w.slots[j].member.spec.version == v
  {
    StepKeeps(s, step, size, v);
    BumpStep(s, step, size, v, i);
    if Bumps(s, step, j) {
      BumpStep(s, step, size, v, j);
    }
  }
}
