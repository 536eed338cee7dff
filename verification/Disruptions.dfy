/** How many pods rollout and rotation take down at the same time. */

module Disruptions {
  import opened Api
  import opened Objects
  import opened MemberController
  import opened ClusterController
  import opened Interleaving
  import opened Invariant
  import opened Rollouts
  import opened Rotation
  import opened Replacements

  /** The pod is on its way out, and not for a repair. */
  predicate Leaving(s: Slot) {
    s.pod.Some? && s.pod.value.terminating && !s.member.spec.broken
  }

  /** Rollout or rotation has taken the pod down, and the member does not serve with a new one yet. */
  predicate Down(s: Slot) {
    s.member.status.phase == Updating || Leaving(s)
  }

  // ----- the invariant

  /** m gives a reason to take the pod of s down. */
  predicate Reason(m: Member, s: Slot) {
    m.status.phase == Running && (!Matched(m) || (m.spec.certificateUpdate && Expired(s)))
  }

  predicate SlotDown(s: Slot) {
    (s.member.status.phase == Updating ==> Replaced(s.member)) && (Leaving(s) ==> Reason(s.member, s))
  }

  /** What a worker outside a repair knows: its copy's reasons are those of the stored member. */
  predicate WorkerDown(s: Slot, p: MemberProc) {
    p.Busy? && !p.mem.spec.broken ==>
      && (!Matched(p.mem) ==> p.mem.spec.version == s.member.spec.version)
      && (p.mem.spec.certificateUpdate && p.mem.status.certificateExpires ==> s.member.spec.certificateUpdate)
      && (p.pc.Certificates? || p.pc.Expiry? ==>
            p.mem.status.certificateExpires == s.member.status.certificateExpires)
      && (p.pc.Claim? || p.pc.ReplacePod? ==> s.pod.Some? && p.mem.status.certificateExpires ==> Expired(s))
      && (p.mem.status.phase == Updating ==> Replaced(p.mem))
      && (p.pc.ReplacePod? ==> p.mem.ShouldUpdate())
      && (Leaving(s) ==> !p.pc.CheckPod? && Reason(p.mem, s))
  }

  predicate ClusterDown(p: ClusterProc) {
    (p.VersionWrite? || p.RotationWrite?) ==> p.m.status.phase != Updating
  }

  predicate AllDown(s: Sys) {
    |s.procs| == |s.w.slots|
    && forall i :: 0 <= i < |s.procs| ==> SlotDown(s.w.slots[i]) && WorkerDown(s.w.slots[i], s.procs[i])
  }

  ghost predicate DownInv(s: Sys, size: int, v: string) {
    BothInv(s, size, v, Count(size)) && AllDown(s) && ClusterDown(s.cluster)
  }

  // ----- one member

  predicate LocalOk(s: Slot, p: MemberProc) {
    SlotOk(s) && ProcOk(s, p) && Noticed(s, p) && SlotDown(s) && WorkerDown(s, p)
  }

  predicate LocalDown(s: Slot, p: MemberProc) {
    SlotDown(s) && WorkerDown(s, p)
  }

  lemma StartDown(s: Slot)
    requires SlotOk(s) && SlotDown(s)
    ensures WorkerDown(s, MemberBegin(s.member))
  {
  }

  lemma RepairCallDown(i: nat, pc: MemberPc, v: View, now: Time)
    requires LocalOk(v.slot, Busy(pc, v.mem)) && InRepair(pc)
    ensures var r := MemberCallAt(i, pc, v, now);
            LocalDown(r.slot, r.proc)
  {
  }

  lemma ForwardCallDown(i: nat, pc: MemberPc, v: View, now: Time)
    requires LocalOk(v.slot, Busy(pc, v.mem)) && !InRepair(pc) && !pc.FinalStatus? && now > ZERO_TIME
    requires FromPast(v.slot, now)
    ensures var r := MemberCallAt(i, pc, v, now);
            LocalDown(r.slot, r.proc)
  {
  }

  lemma FinalCallDown(i: nat, v: View, now: Time)
    requires LocalOk(v.slot, Busy(FinalStatus, v.mem))
    ensures var r := MemberCallAt(i, FinalStatus, v, now);
            LocalDown(r.slot, r.proc)
  {
  }

  lemma HalfCallDown(pc: MemberPc, v: View)
    requires LocalOk(v.slot, Busy(pc, v.mem)) && (pc.Certificates? || pc.Expiry?)
    ensures var r := HalfCallAt(pc, v);
            LocalDown(r.slot, r.proc)
  {
  }

  lemma FailDown(s: Slot, p: MemberProc)
    requires LocalOk(s, p) && p.Busy?
    ensures WorkerDown(s, Busy(FinalStatus, p.mem))
  {
  }

  lemma EnvDown(s: Slot, p: MemberProc, e: EnvStep, now: Time)
    requires LocalOk(s, p)
    requires e.CertIssued? ==> !WasIssued(if e.peer then s.peerCert else s.clientCert)
    ensures LocalDown(EnvSlot(s, e, now), p)
  {
  }

  lemma BumpDown(s: Slot, p: MemberProc, v: string)
    requires LocalOk(s, p) && s.member.spec.version != v && s.member.status.phase != Updating
    requires !Matched(s.member) ==> s.member.spec.version == v
    ensures LocalDown(WithSpec(s, s.member.spec.(version := v)), p)
  {
  }

  lemma RequestDown(s: Slot, p: MemberProc)
    requires LocalOk(s, p) && s.member.status.phase != Updating
    ensures LocalDown(Rotate(s), p)
  {
  }

  lemma MarkDown(s: Slot, p: MemberProc)
    requires LocalOk(s, p) && s.member.status.phase == Failed
    ensures LocalDown(MarkBroken(s), p)
  {
  }

  // ----- the system

  lemma LocallyOk(s: Sys, size: int, v: string, i: nat)
    requires DownInv(s, size, v) && i < |s.procs|
    ensures i < |s.w.slots| && LocalOk(s.w.slots[i], s.procs[i]) && FromPast(s.w.slots[i], s.w.now)
  {
    assert FlagOk(s.w.slots[i], s.procs[i], s.w.now, i, Count(size));
  }

  lemma MemberCallAllDown(s: Sys, i: nat, size: int, v: string)
    requires DownInv(s, size, v) && i < |s.procs| && s.procs[i].Busy?
    ensures AllDown(MemberCalled(s, i))
  {
    var p := s.procs[i];
    var view := View(p.mem, s.w.slots[i], s.w.etcd);
    LocallyOk(s, size, v, i);
    if InRepair(p.pc) {
      RepairCallDown(i, p.pc, view, s.w.now);
    } else if p.pc.FinalStatus? {
      FinalCallDown(i, view, s.w.now);
    } else {
      ForwardCallDown(i, p.pc, view, s.w.now);
    }
  }

  lemma EnvAllDown(s: Sys, e: EnvStep, size: int, v: string)
    requires DownInv(s, size, v) && !Renews(s, Environment(e))
    ensures AllDown(Apply(s, Environment(e)))
  {
    if !e.Tick? && !e.UserEdit? && !e.EtcdStarted? && e.i < |s.w.slots| {
      LocallyOk(s, size, v, e.i);
      EnvDown(s.w.slots[e.i], s.procs[e.i], e, s.w.now);
    }
  }

  lemma HalfAllDown(s: Sys, i: nat, size: int, v: string)
    requires DownInv(s, size, v) && InHalves(s, i)
    ensures AllDown(MemberHalved(s, i))
  {
    LocallyOk(s, size, v, i);
    HalfCallDown(s.procs[i].pc, View(s.procs[i].mem, s.w.slots[i], s.w.etcd));
  }

  lemma ProcAllDown(s: Sys, step: Step, size: int, v: string)
    requires DownInv(s, size, v) && (step.MemberStart? || step.MemberFail? || step.MemberCrash?)
    ensures AllDown(Apply(s, step))
  {
    if step.i < |s.procs| {
      LocallyOk(s, size, v, step.i);
      if s.procs[step.i].Idle? {
        StartDown(s.w.slots[step.i]);
      } else {
        FailDown(s.w.slots[step.i], s.procs[step.i]);
      }
    }
  }

  lemma WriteAllDown(s: Sys, size: int, v: string)
    requires DownInv(s, size, v) && (s.cluster.BreakWrite? || s.cluster.VersionWrite? || s.cluster.RotationWrite?)
    ensures AllDown(ClusterCalled(s)) && ClusterDown(ClusterCalled(s).cluster)
  {
    match s.cluster
    case VersionWrite(c, i, m) =>
      LocallyOk(s, size, v, i);
      if Current(s.w.slots, i, m) {
        BumpDown(s.w.slots[i], s.procs[i], v);
      }
    case RotationWrite(c, i, m) =>
      LocallyOk(s, size, v, i);
      if Current(s.w.slots, i, m) {
        RequestDown(s.w.slots[i], s.procs[i]);
      }
    case BreakWrite(c, cutoff, read) => BreakAllDown(s, size, v);
    case _ =>
  }

  lemma BreakAllDown(s: Sys, size: int, v: string)
    requires DownInv(s, size, v) && s.cluster.BreakWrite?
    ensures AllDown(ClusterCalled(s)) && ClusterDown(ClusterCalled(s).cluster)
  {
    var read := s.cluster.read;
    var i := Oldest(read, s.cluster.cutoff).value;
    OldestIsLongestFailed(read, s.cluster.cutoff);
    if Current(s.w.slots, i, read[i]) {
      assert read[i] == s.w.slots[i].member;
      LocallyOk(s, size, v, i);
      MarkDown(s.w.slots[i], s.procs[i]);
    }
  }

  lemma ReadAllDown(s: Sys, size: int, v: string)
    requires DownInv(s, size, v) && (s.cluster.EnsurePass? || s.cluster.RepairPass? || s.cluster.UpdatePass?)
    ensures AllDown(ClusterCalled(s)) && ClusterDown(ClusterCalled(s).cluster)
  {
    var k := if s.cluster.UpdatePass? then s.cluster.i else |s.cluster.read|;
    PresentEnsured(s, s.cluster.c, k);
  }

  lemma StepDown(s: Sys, step: Step, size: int, v: string)
    requires DownInv(s, size, v) && s.w.cluster.spec.version == v && !Renews(s, step)
    ensures DownInv(Apply(s, step), size, v)
  {
    StepOrdered(s, step, size, v, Count(size));
    match step
    case MemberCall(i) =>
      if i < |s.procs| && s.procs[i].Busy? {
        MemberCallAllDown(s, i, size, v);
      }
    case MemberHalf(i) =>
      if InHalves(s, i) {
        HalfAllDown(s, i, size, v);
      }
    case Environment(e) => EnvAllDown(s, e, size, v);
    case ClusterStart(_) =>
    case ClusterCall =>
      if s.cluster.BreakWrite? || s.cluster.VersionWrite? || s.cluster.RotationWrite? {
        WriteAllDown(s, size, v);
      } else if !s.cluster.ClusterIdle? && !s.cluster.StatusWrite? {
        ReadAllDown(s, size, v);
      }
    case ClusterFail =>
    case ClusterCrash =>
    case _ => ProcAllDown(s, step, size, v);
  }

  /** Nobody is between versions, asked to rotate, or taken down, and no worker is busy. */
  predicate AtRest(s: Sys, size: int) {
    Settled(s, size) && Calm(s, Count(size)) && forall i :: 0 <= i < |s.w.slots| ==> !Down(s.w.slots[i])
  }

  lemma {:induction false} DownRun(s: Sys, steps: seq<Step>, size: int, v: string)
    requires Inv(s, size) && AtRest(s, size) && Steady(s, steps, v) && NoRenewals(s, steps)
    ensures DownInv(Run(s, steps), size, v)
  {
    if steps == [] {
      BothRun(s, steps, size, v);
    } else {
      var before := steps[..|steps| - 1];
      assert forall k :: 0 <= k <= |before| ==> before[..k] == steps[..k];
      assert forall k :: 0 <= k < |before| ==> before[k] == steps[k];
      DownRun(s, before, size, v);
      assert before == steps[..|before|];
      StepDown(Run(s, before), steps[|steps| - 1], size, v);
    }
  }

  /** As long as the cluster's version stays the same and no certificate is renewed, rollout and rotation together
      hold at most one member down, in every state of every interleaved run: one that is Updating, or whose pod
      is on its way out though no repair asked for it. */
  lemma OneDown(s: Sys, steps: seq<Step>, size: int, v: string, i: nat, j: nat)
    requires Inv(s, size) && AtRest(s, size) && Steady(s, steps, v) && NoRenewals(s, steps)
    ensures var slots := Run(s, steps).w.slots;
            i < |slots| && j < |slots| && Down(slots[i]) && Down(slots[j]) ==> i == j
  {
    DownRun(s, steps, size, v);
    OneReplacement(s, steps, size, v, i, j);
    var slots := Run(s, steps).w.slots;
    assert i < |slots| ==> SlotDown(slots[i]);
    assert j < |slots| ==> SlotDown(slots[j]);
  }
}
