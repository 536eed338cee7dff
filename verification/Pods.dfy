/** With which state and containers pods start, in every interleaved run. */

module Pods {
  import opened Api
  import opened Objects
  import opened Topology
  import opened MemberController
  import opened ClusterController
  import opened Interleaving
  import opened Invariant
  import opened Repairs

  /** One container; a backup is restored exactly by pods that bootstrap; and only a volume that a repair made
      can be under a pod that joins an existing cluster. */
  predicate PodOk(s: Slot, backup: string) {
    s.pod.Some? ==>
      && s.pod.value.containers == 1
      && (s.pod.value.restore <==> s.pod.value.state == New && backup != "")
      && (s.pvc.Some? && !s.pvc.value.recreated ==> s.pod.value.state == New)
  }

  predicate BootOk(s: Slot, p: MemberProc, backup: string) {
    && PodOk(s, backup)
    && s.member.spec.backup == backup
    && (s.member.status.phase == Recreating && s.pvc.Some? ==> s.pvc.value.recreated)
    && (p.Busy? ==> p.mem.spec.backup == backup)
  }

  predicate CopyBackup(p: ClusterProc, backup: string) {
    match p
    case ClusterIdle => true
    case StatusWrite(_) => true
    case _ => p.c.spec.backup == backup
  }

  ghost predicate BootInv(s: Sys, size: int, backup: string) {
    Inv(s, size) && s.w.cluster.spec.backup == backup && CopyBackup(s.cluster, backup)
    && forall i :: 0 <= i < |s.procs| ==> BootOk(s.w.slots[i], s.procs[i], backup)
  }

  // ----- one member

  lemma CallBoots(i: nat, pc: MemberPc, v: View, now: Time, backup: string)
    requires SlotOk(v.slot) && ProcOk(v.slot, Busy(pc, v.mem)) && BootOk(v.slot, Busy(pc, v.mem), backup)
    ensures var r := MemberCallAt(i, pc, v, now);
            BootOk(r.slot, r.proc, backup)
  {
  }

  lemma EnvBoots(s: Slot, p: MemberProc, e: EnvStep, now: Time, backup: string)
    requires SlotOk(s) && BootOk(s, p, backup)
    ensures BootOk(EnvSlot(s, e, now), p, backup)
  {
  }

  // ----- the system

  predicate AllBoot(s: Sys, backup: string) {
    |s.procs| == |s.w.slots| && forall i :: 0 <= i < |s.procs| ==> BootOk(s.w.slots[i], s.procs[i], backup)
  }

  lemma MemberCallBoots(s: Sys, i: nat, size: int, backup: string)
    requires BootInv(s, size, backup) && i < |s.procs| && s.procs[i].Busy?
    ensures AllBoot(MemberCalled(s, i), backup)
  {
    assert SlotOk(s.w.slots[i]) && ProcOk(s.w.slots[i], s.procs[i]) && BootOk(s.w.slots[i], s.procs[i], backup);
    CallBoots(i, s.procs[i].pc, View(s.procs[i].mem, s.w.slots[i], s.w.etcd), s.w.now, backup);
  }

  lemma MemberHalfBoots(s: Sys, i: nat, size: int, backup: string)
    requires BootInv(s, size, backup) && InHalves(s, i)
    ensures AllBoot(MemberHalved(s, i), backup)
  {
    assert BootOk(s.w.slots[i], s.procs[i], backup);
  }

  lemma EnvStepBoots(s: Sys, e: EnvStep, size: int, backup: string)
    requires BootInv(s, size, backup)
    ensures AllBoot(Apply(s, Environment(e)), backup) && Env(s.w, e).cluster.spec.backup == backup
  {
    if !e.Tick? && !e.UserEdit? && !e.EtcdStarted? && e.i < |s.w.slots| {
      assert SlotOk(s.w.slots[e.i]) && BootOk(s.w.slots[e.i], s.procs[e.i], backup);
      EnvBoots(s.w.slots[e.i], s.procs[e.i], e, s.w.now, backup);
    }
  }

  lemma NextCopies(c: Cluster, cutoff: Time, read: seq<Member>, i: nat, m: Member, now: Time, backup: string)
    requires c.spec.backup == backup
    ensures CopyBackup(EnsureNext(c, read, now), backup) && CopyBackup(RepairNext(c, cutoff, read), backup)
    ensures CopyBackup(UpdateRead(c, i, m), backup) && CopyBackup(AfterRepair(c), backup)
    ensures CopyBackup(Rotated(c, i, m), backup)
  {
  }

  lemma EnsuredBoots(s: Sys, c: Cluster, i: nat, backup: string)
    requires AllBoot(s, backup) && c.spec.backup == backup
    ensures AllBoot(Ensured(s, c, i), backup)
  {
    var t := Ensured(s, c, i);
    forall j | 0 <= j < |t.w.slots|
      ensures t.w.slots[j] == if j < |s.w.slots| then s.w.slots[j] else NewSlot(GetMember(c, j))
    {
      EnsureSlotsAt(c, s.w.slots, i + 1, j);
    }
  }

  lemma ReadBoots(s: Sys, size: int, backup: string)
    requires BootInv(s, size, backup) && (s.cluster.EnsurePass? || s.cluster.RepairPass? || s.cluster.UpdatePass?)
    ensures AllBoot(ClusterCalled(s), backup) && CopyBackup(ClusterCalled(s).cluster, backup)
    ensures ClusterCalled(s).w.cluster == s.w.cluster
  {
    var c := s.cluster.c;
    var k := if s.cluster.UpdatePass? then s.cluster.i else |s.cluster.read|;
    EnsuredBoots(s, c, k, backup);
    var m := Ensured(s, c, k).w.slots[k].member;
    var cutoff := if s.cluster.RepairPass? then s.cluster.cutoff else 0;
    var read := if s.cluster.UpdatePass? then [] else s.cluster.read + [m];
    NextCopies(c, cutoff, read, k, m, s.w.now, backup);
  }

  /** A write of a spec that keeps the backup. */
  lemma WrittenBoots(s: Sys, i: nat, m: Member, spec: MemberSpec, next: ClusterProc, failed: ClusterProc,
                     backup: string)
    requires AllBoot(s, backup) && spec.backup == backup && (Current(s.w.slots, i, m) ==> i < |s.procs|)
    ensures AllBoot(Written(s, i, m, spec, next, failed), backup)
    ensures Written(s, i, m, spec, next, failed).w.cluster == s.w.cluster
  {
    if Current(s.w.slots, i, m) {
      assert BootOk(s.w.slots[i], s.procs[i], backup);
    }
  }

  lemma WriteBoots(s: Sys, size: int, backup: string)
    requires BootInv(s, size, backup) && (s.cluster.BreakWrite? || s.cluster.VersionWrite? || s.cluster.RotationWrite?)
    ensures AllBoot(ClusterCalled(s), backup) && CopyBackup(ClusterCalled(s).cluster, backup)
    ensures ClusterCalled(s).w.cluster == s.w.cluster
  {
    match s.cluster
    case VersionWrite(c, i, m) =>
      if Current(s.w.slots, i, m) {
        assert BootOk(s.w.slots[i], s.procs[i], backup) && m == s.w.slots[i].member;
        WrittenBoots(s, i, m, m.spec.(version := c.spec.version), StatusWrite(c), StatusWrite(c), backup);
      }
    case RotationWrite(c, i, m) =>
      NextCopies(c, 0, [], i, m, s.w.now, backup);
      if Current(s.w.slots, i, m) {
        assert BootOk(s.w.slots[i], s.procs[i], backup) && m == s.w.slots[i].member;
        var spec := m.spec.(certificateUpdate := m.status.certificateExpires);
        WrittenBoots(s, i, m, spec, Rotated(c, i, m), StatusWrite(c), backup);
      }
    case BreakWrite(c, cutoff, read) => BreakBoots(s, size, backup);
    case _ =>
  }

  lemma BreakBoots(s: Sys, size: int, backup: string)
    requires BootInv(s, size, backup) && s.cluster.BreakWrite?
    ensures AllBoot(ClusterCalled(s), backup) && CopyBackup(ClusterCalled(s).cluster, backup)
    ensures ClusterCalled(s).w.cluster == s.w.cluster
  {
    var c, read := s.cluster.c, s.cluster.read;
    var i := Oldest(read, s.cluster.cutoff).value;
    NextCopies(c, 0, [], i, read[i], s.w.now, backup);
    if Current(s.w.slots, i, read[i]) {
      assert BootOk(s.w.slots[i], s.procs[i], backup) && read[i] == s.w.slots[i].member;
      WrittenBoots(s, i, read[i], read[i].spec.(broken := true), AfterRepair(c), StatusWrite(c), backup);
    }
  }

  lemma StepBoots(s: Sys, step: Step, size: int, backup: string)
    requires BootInv(s, size, backup)
    ensures BootInv(Apply(s, step), size, backup)
  {
    StepInv(s, step, size);
    match step
    case MemberCall(i) =>
      if i < |s.procs| && s.procs[i].Busy? {
        MemberCallBoots(s, i, size, backup);
      }
    case MemberHalf(i) =>
      if InHalves(s, i) {
        MemberHalfBoots(s, i, size, backup);
      }
    case Environment(e) => EnvStepBoots(s, e, size, backup);
    case ClusterStart(_) =>
      NextCopies(Opened(s.w.cluster), 0, [], 0, GetMember(s.w.cluster, 0), s.w.now, backup);
    case ClusterCall =>
      if s.cluster.BreakWrite? || s.cluster.VersionWrite? || s.cluster.RotationWrite? {
        WriteBoots(s, size, backup);
      } else if !s.cluster.ClusterIdle? && !s.cluster.StatusWrite? {
        ReadBoots(s, size, backup);
      }
    case _ => ProcBoots(s, step, size, backup);
  }

  lemma ProcBoots(s: Sys, step: Step, size: int, backup: string)
    requires BootInv(s, size, backup)
    requires step.MemberStart? || step.MemberFail? || step.MemberCrash? || step.ClusterFail? || step.ClusterCrash?
    ensures AllBoot(Apply(s, step), backup) && CopyBackup(Apply(s, step).cluster, backup)
    ensures Apply(s, step).w == s.w
  {
  }

  lemma {:induction false} RunBoots(w: World, steps: seq<Step>)
    requires Fresh(w)
    ensures BootInv(Reached(w, steps), w.cluster.spec.size, w.cluster.spec.backup)
  {
    if steps == [] {
      StartInv(w);
    } else {
      var before := steps[..|steps| - 1];
      RunBoots(w, before);
      StepBoots(Reached(w, before), steps[|steps| - 1], w.cluster.spec.size, w.cluster.spec.backup);
    }
  }

  /** In every state of every interleaved run a pod has one container; on a volume that no repair made it bootstraps
      a new cluster; and it restores the cluster's backup, if there is one, exactly when it bootstraps. */
  lemma PodsStartRight(w: World, steps: seq<Step>, i: nat)
    requires Fresh(w) && i < |Reached(w, steps).w.slots|
    ensures var s := Reached(w, steps).w.slots[i];
            s.pod.Some? ==>
              && s.pvc.Some? && s.pod.value.containers == 1
              && (!s.pvc.value.recreated ==> s.pod.value.state == New)
              && (s.pod.value.restore <==> s.pod.value.state == New && w.cluster.spec.backup != "")
              && s.member.spec.backup == w.cluster.spec.backup
  {
    RunBoots(w, steps);
    var s := Reached(w, steps);
    assert SlotOk(s.w.slots[i]) && BootOk(s.w.slots[i], s.procs[i], w.cluster.spec.backup);
  }
}
