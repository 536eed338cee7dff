/** Which single calls put a member's pod at odds with the version that the member's phase promises. */

module Images {
  import opened Wrappers
  import opened Api
  import opened Etcd
  import opened Objects
  import opened MemberController
  import opened ClusterController
  import opened Interleaving
  import opened Invariant
  import opened Repairs
  import opened AtomicRuns

  /** What a worker knows about its pod: a copy that is Updating before its stored member is found the pod
      gone, and a copy that is about to be stored has the phase and version that fit the pod. */
  predicate Knows(s: Slot, p: MemberProc) {
    p.Busy? ==>
      && (p.pc.CheckPod? ==>
            && (p.mem.status.phase == Running ==> p.mem.status.version == p.mem.spec.version)
            && (p.mem.status.phase == Updating && s.member.status.phase == Running ==> s.pod.None?))
      && (p.pc.FinalStatus? && p.mem.resourceVersion == s.member.resourceVersion && TrueVersion(s) && s.pod.Some? ==>
            s.pod.value.version == PodVersion(p.mem))
  }

  predicate AllKnow(s: Sys) {
    |s.procs| == |s.w.slots| && forall i :: 0 <= i < |s.procs| ==> Knows(s.w.slots[i], s.procs[i])
  }

  /** The worker's next call makes a pod of a version that the stored member does not promise. */
  predicate MakesOther(s: Slot, p: MemberProc) {
    p.Busy? && p.pc.CheckPod? && s.pod.None? && p.mem.spec.version != PodVersion(s.member)
  }

  /** The cluster controller's next call changes the version under a pod whose member is not Running. */
  predicate BumpsUnder(s: Sys, i: nat) {
    s.cluster.VersionWrite? && s.cluster.i == i && Current(s.w.slots, i, s.cluster.m)
    && s.w.slots[i].pod.Some? && s.w.slots[i].member.status.phase != Running
    && s.w.slots[i].member.spec.version != s.cluster.c.spec.version
  }

  predicate BreaksImage(s: Sys, step: Step, i: nat) {
    i < |s.w.slots| && i < |s.procs|
    && match step
       case MemberCall(j) => j == i && MakesOther(s.w.slots[i], s.procs[i])
       case ClusterCall => BumpsUnder(s, i)
       case _ => false
  }

  // ----- calls of the member's own worker

  lemma RepairCallImage(i: nat, pc: MemberPc, v: View, now: Time)
    requires SlotOk(v.slot) && InRepair(pc) && RepairOk(v.slot, pc, v.mem)
    ensures var r := MemberCallAt(i, pc, v, now);
            Knows(r.slot, r.proc) && (TrueVersion(v.slot) ==> TrueVersion(r.slot))
  {
  }

  lemma ForwardCallImage(i: nat, pc: MemberPc, v: View, now: Time)
    requires SlotOk(v.slot) && !InRepair(pc) && !pc.FinalStatus? && ForwardOk(v.slot, pc, v.mem)
    requires Knows(v.slot, Busy(pc, v.mem))
    ensures var r := MemberCallAt(i, pc, v, now);
            Knows(r.slot, r.proc)
            && (TrueVersion(v.slot) ==> (TrueVersion(r.slot) <==> !MakesOther(v.slot, Busy(pc, v.mem))))
  {
  }

  lemma FinalCallImage(i: nat, v: View, now: Time)
    requires SlotOk(v.slot) && FinalOk(v.slot, v.mem) && Knows(v.slot, Busy(FinalStatus, v.mem))
    ensures var r := MemberCallAt(i, FinalStatus, v, now);
            Knows(r.slot, r.proc) && (TrueVersion(v.slot) ==> TrueVersion(r.slot))
  {
  }

  lemma OwnCallImage(i: nat, pc: MemberPc, v: View, now: Time)
    requires SlotOk(v.slot) && ProcOk(v.slot, Busy(pc, v.mem)) && Knows(v.slot, Busy(pc, v.mem))
    ensures var r := MemberCallAt(i, pc, v, now);
            Knows(r.slot, r.proc)
            && (TrueVersion(v.slot) ==> (TrueVersion(r.slot) <==> !MakesOther(v.slot, Busy(pc, v.mem))))
  {
    if InRepair(pc) {
      RepairCallImage(i, pc, v, now);
    } else if pc.FinalStatus? {
      FinalCallImage(i, v, now);
    } else {
      ForwardCallImage(i, pc, v, now);
    }
  }

  // ----- the other steps, as far as one member sees them

  lemma FailKnows(s: Slot, p: MemberProc)
    requires SlotOk(s) && ProcOk(s, p) && Knows(s, p) && p.Busy?
    ensures Knows(s, Busy(FinalStatus, p.mem))
  {
  }

  lemma EnvImage(s: Slot, p: MemberProc, e: EnvStep, now: Time)
    requires SlotOk(s) && ProcOk(s, p) && Knows(s, p)
    ensures Knows(EnvSlot(s, e, now), p) && (TrueVersion(s) ==> TrueVersion(EnvSlot(s, e, now)))
  {
  }

  lemma SpecWriteKnows(s: Slot, p: MemberProc, spec: MemberSpec)
    requires SlotOk(s) && ProcOk(s, p) && Knows(s, p)
    ensures Knows(WithSpec(s, spec), p)
    ensures TrueVersion(s) ==>
      (TrueVersion(WithSpec(s, spec)) <==>
       !(s.pod.Some? && s.member.status.phase != Running && spec.version != s.member.spec.version))
  {
  }

  predicate SpecWrites(p: ClusterProc) {
    p.BreakWrite? || p.VersionWrite? || p.RotationWrite?
  }

  /** A write of a spec that leaves the version alone. */
  lemma WrittenImage(s: Sys, j: nat, m: Member, spec: MemberSpec, next: ClusterProc, failed: ClusterProc, i: nat)
    requires SlotsOk(s) && AllKnow(s) && i < |s.w.slots|
    requires Current(s.w.slots, j, m) ==> spec.version == s.w.slots[j].member.spec.version
    ensures var t := Written(s, j, m, spec, next, failed);
            |t.w.slots| == |s.w.slots| && t.procs == s.procs && Knows(t.w.slots[i], t.procs[i])
            && (TrueVersion(s.w.slots[i]) ==> TrueVersion(t.w.slots[i]))
  {
    assert SlotOk(s.w.slots[i]) && ProcOk(s.w.slots[i], s.procs[i]) && Knows(s.w.slots[i], s.procs[i]);
    SpecWriteKnows(s.w.slots[i], s.procs[i], spec);
  }

  lemma VersionWriteImage(s: Sys, size: int, i: nat)
    requires Inv(s, size) && AllKnow(s) && i < |s.w.slots| && s.cluster.VersionWrite?
    ensures var t := ClusterCalled(s);
            |t.w.slots| == |s.w.slots| && t.procs == s.procs && Knows(t.w.slots[i], t.procs[i])
            && (TrueVersion(s.w.slots[i]) ==> (TrueVersion(t.w.slots[i]) <==> !BumpsUnder(s, i)))
  {
    assert SlotOk(s.w.slots[i]) && ProcOk(s.w.slots[i], s.procs[i]) && Knows(s.w.slots[i], s.procs[i]);
    SpecWriteKnows(s.w.slots[i], s.procs[i], s.cluster.m.spec.(version := s.cluster.c.spec.version));
  }

  lemma WriteImage(s: Sys, size: int, i: nat)
    requires Inv(s, size) && AllKnow(s) && i < |s.w.slots| && SpecWrites(s.cluster)
    ensures var t := ClusterCalled(s);
            |t.w.slots| == |s.w.slots| && t.procs == s.procs && Knows(t.w.slots[i], t.procs[i])
            && (TrueVersion(s.w.slots[i]) ==> (TrueVersion(t.w.slots[i]) <==> !BumpsUnder(s, i)))
  {
    match s.cluster
    case VersionWrite(_, _, _) => VersionWriteImage(s, size, i);
    case RotationWrite(c, j, m) =>
      var spec := m.spec.(certificateUpdate := m.status.certificateExpires);
      WrittenImage(s, j, m, spec, Rotated(c, j, m), StatusWrite(c), i);
    case BreakWrite(c, cutoff, read) =>
      var j := Oldest(read, cutoff).value;
      WrittenImage(s, j, read[j], read[j].spec.(broken := true), AfterRepair(c), StatusWrite(c), i);
    case _ =>
  }

  lemma ReadImage(s: Sys, size: int, i: nat)
    requires Inv(s, size) && AllKnow(s) && !SpecWrites(s.cluster)
    ensures var t := ClusterCalled(s);
            && |s.w.slots| <= |t.w.slots| == |t.procs|
            && (i < |s.w.slots| ==> t.w.slots[i] == s.w.slots[i] && t.procs[i] == s.procs[i])
            && (|s.w.slots| <= i < |t.w.slots| ==> t.w.slots[i].pod.None? && t.procs[i].Idle?)
  {
    match s.cluster
    case EnsurePass(c, read) =>
      if i < |Ensured(s, c, |read|).w.slots| {
        EnsureSlotsAt(c, s.w.slots, |read| + 1, i);
      }
    case RepairPass(c, _, read) => PresentEnsured(s, c, |read|);
    case UpdatePass(c, k) => PresentEnsured(s, c, k);
    case _ =>
  }

  /** What a step to t does to member i's pod and promise, and to its worker's knowledge of them. */
  predicate ImageStep(s: Sys, t: Sys, i: nat, breaks: bool) {
    && |s.w.slots| <= |t.w.slots| == |t.procs|
    && (i < |t.w.slots| ==> Knows(t.w.slots[i], t.procs[i]))
    && (i < |s.w.slots| && TrueVersion(s.w.slots[i]) ==> (TrueVersion(t.w.slots[i]) <==> !breaks))
    && (|s.w.slots| <= i < |t.w.slots| ==> TrueVersion(t.w.slots[i]))
  }

  lemma ClusterCallImage(s: Sys, size: int, i: nat)
    requires Inv(s, size) && AllKnow(s)
    ensures ImageStep(s, ClusterCalled(s), i, BreaksImage(s, ClusterCall, i))
  {
    if SpecWrites(s.cluster) {
      if i < |s.w.slots| {
        WriteImage(s, size, i);
      }
    } else {
      ReadImage(s, size, i);
    }
  }

  lemma MemberCallImage(s: Sys, j: nat, size: int, i: nat)
    requires Inv(s, size) && AllKnow(s) && j < |s.procs| && s.procs[j].Busy?
    ensures ImageStep(s, MemberCalled(s, j), i, BreaksImage(s, MemberCall(j), i))
  {
    if i < |s.procs| {
      assert SlotOk(s.w.slots[i]) && ProcOk(s.w.slots[i], s.procs[i]) && Knows(s.w.slots[i], s.procs[i]);
      if j == i {
        OwnCallImage(i, s.procs[i].pc, View(s.procs[i].mem, s.w.slots[i], s.w.etcd), s.w.now);
      }
    }
  }

  lemma EnvStepImage(s: Sys, e: EnvStep, size: int, i: nat)
    requires Inv(s, size) && AllKnow(s)
    ensures ImageStep(s, Apply(s, Environment(e)), i, false)
  {
    if i < |s.w.slots| {
      assert SlotOk(s.w.slots[i]) && ProcOk(s.w.slots[i], s.procs[i]) && Knows(s.w.slots[i], s.procs[i]);
      EnvImage(s.w.slots[i], s.procs[i], e, s.w.now);
    }
  }

  lemma MemberHalfImage(s: Sys, j: nat, size: int, i: nat)
    requires Inv(s, size) && AllKnow(s) && InHalves(s, j)
    ensures ImageStep(s, MemberHalved(s, j), i, false)
  {
    if i < |s.procs| {
      assert SlotOk(s.w.slots[i]) && ProcOk(s.w.slots[i], s.procs[i]) && Knows(s.w.slots[i], s.procs[i]);
    }
  }

  /** Steps that touch no slot. */
  lemma ProcStepImage(s: Sys, step: Step, size: int, i: nat)
    requires Inv(s, size) && AllKnow(s)
    requires step.MemberStart? || step.MemberFail? || step.MemberCrash?
             || step.ClusterStart? || step.ClusterFail? || step.ClusterCrash?
    ensures ImageStep(s, Apply(s, step), i, false)
  {
    if i < |s.procs| {
      assert SlotOk(s.w.slots[i]) && ProcOk(s.w.slots[i], s.procs[i]) && Knows(s.w.slots[i], s.procs[i]);
      if step == MemberFail(i) && s.procs[i].Busy? {
        FailKnows(s.w.slots[i], s.procs[i]);
      }
    }
  }

  lemma StepImage(s: Sys, step: Step, size: int, i: nat)
    requires Inv(s, size) && AllKnow(s)
    ensures ImageStep(s, Apply(s, step), i, BreaksImage(s, step, i))
  {
    match step
    case MemberCall(j) =>
      if j < |s.procs| && s.procs[j].Busy? {
        MemberCallImage(s, j, size, i);
      }
    case MemberHalf(j) =>
      if InHalves(s, j) {
        MemberHalfImage(s, j, size, i);
      }
    case ClusterCall => ClusterCallImage(s, size, i);
    case Environment(e) => EnvStepImage(s, e, size, i);
    case _ => ProcStepImage(s, step, size, i);
  }

  lemma {:induction false} RunKnows(s: Sys, steps: seq<Step>, size: int)
    requires Inv(s, size) && AllKnow(s)
    ensures AllKnow(Run(s, steps))
  {
    if steps != [] {
      var before := steps[..|steps| - 1];
      RunKnows(s, before, size);
      RunInv(s, before, size);
      var u, t := Run(s, before), Run(s, steps);
      StepImage(u, steps[|steps| - 1], size, 0);
      forall i | 0 <= i < |t.procs|
        ensures Knows(t.w.slots[i], t.procs[i])
      {
        StepImage(u, steps[|steps| - 1], size, i);
      }
    }
  }

  // ----- results

  /** In every interleaved run a step puts the pod of a member at odds with what the member promises exactly when
      it is one of two: the worker makes a pod of a version that is not the promised one, because the status
      write that announces it comes later or its copy is old; or the cluster controller tells the version to a
      member that has failed since the pass before the loop. A new member promises nothing false. */
  lemma ImageBreaksExactly(w: World, steps: seq<Step>, step: Step, i: nat)
    requires Fresh(w)
    ensures var s, t := Reached(w, steps), Apply(Reached(w, steps), step);
            && |s.w.slots| <= |t.w.slots|
            && (i < |s.w.slots| && TrueVersion(s.w.slots[i]) ==>
                  (!TrueVersion(t.w.slots[i]) <==> BreaksImage(s, step, i)))
            && (|s.w.slots| <= i < |t.w.slots| ==> TrueVersion(t.w.slots[i]))
  {
    StartInv(w);
    RunKnows(Start(w), steps, w.cluster.spec.size);
    ReachedInv(w, steps);
    StepImage(Reached(w, steps), step, w.cluster.spec.size, i);
  }

  /** A member that is still stored as Running at its old version: the next whole reconcile deletes the pod. */
  lemma ReplacedNext(i: nat, slot: Slot, etcd: Membership, now: Time)
    requires slot.member.status.phase == Running && slot.member.spec.version != slot.member.status.version
    requires !slot.member.spec.broken && slot.pod.Some? && slot.Issued()
    ensures var (r, e) := Reconcile(i, slot, etcd, now);
            e == etcd && r.pod == Some(slot.pod.value.(terminating := true))
            && r.member.status.phase == Running && r.member.status.version == slot.member.status.version
  {
  }

  /** A member that is not Running and whose pod is ready: the next whole reconcile calls it Running and reports the
      version it asks for, whatever the pod runs. */
  lemma WrongImageReported(i: nat, slot: Slot, etcd: Membership, now: Time)
    requires slot.member.status.phase != Running && (slot.member.IsCreating() ==> slot.pvc.Some?)
    requires !slot.member.spec.broken && slot.PodReady() && slot.Issued()
    ensures var (r, e) := Reconcile(i, slot, etcd, now);
            e == etcd && r.pod == slot.pod && r.member.spec == slot.member.spec && r.member.status.phase == Running
            && r.member.status.version == slot.member.spec.version
            && (TrueVersion(r) <==> slot.pod.value.version == slot.member.spec.version)
  {
  }
}
