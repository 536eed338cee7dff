/** Certificate rotation over every interleaved run without further renewals. */

module Rotation {
  import opened Wrappers
  import opened Api
  import opened Objects
  import opened Topology
  import opened MemberController
  import opened ClusterController
  import opened Interleaving
  import opened Invariant

  predicate ClientNewer(s: Slot) {
    s.pod.Some? && s.clientCert.Some? && s.clientCert.value > s.pod.value.created
  }

  predicate PeerNewer(s: Slot) {
    s.pod.Some? && s.peerCert.Some? && s.peerCert.value > s.pod.value.created
  }

  /** A check can find a certificate that is newer than the pod. */
  predicate Expired(s: Slot) {
    ClientNewer(s) || PeerNewer(s)
  }

  /** Every check does, whichever of its reads fail. */
  predicate Both(s: Slot) {
    ClientNewer(s) && PeerNewer(s)
  }

  predicate WasIssued(cert: Option<Time>) {
    cert.Some? && cert.value != ZERO_TIME
  }

  /** A step that issues a certificate that had been issued before. */
  predicate Renews(s: Sys, step: Step) {
    step.Environment? && step.e.CertIssued? && step.e.i < |s.w.slots|
    && WasIssued(if step.e.peer then s.w.slots[step.e.i].peerCert else s.w.slots[step.e.i].clientCert)
  }

  ghost predicate NoRenewals(s: Sys, steps: seq<Step>) {
    forall k :: 0 <= k < |steps| ==> !Renews(Run(s, steps[..k]), steps[k])
  }

  predicate FromPast(s: Slot, now: Time) {
    (s.clientCert.Some? ==> s.clientCert.value <= now) && (s.peerCert.Some? ==> s.peerCert.value <= now)
  }

  /** No request is pending, every renewal has been noticed and is one of both certificates, except perhaps that
      of member u, nobody above u has a renewal or a flag, no certificate is from the future, and no worker is
      busy. A u past the last member makes no exception. */
  predicate Calm(s: Sys, u: nat) {
    s.cluster.ClusterIdle?
    && (forall i :: 0 <= i < |s.procs| ==> s.procs[i].Idle?)
    && forall i :: 0 <= i < |s.w.slots| ==>
         var slot := s.w.slots[i];
         !slot.member.spec.certificateUpdate
         && (i != u && Expired(slot) ==> slot.member.status.certificateExpires && Both(slot))
         && (i > u ==> !Expired(slot) && !slot.member.status.certificateExpires)
         && FromPast(slot, s.w.now)
  }

  // ----- the invariant

  predicate Noticed(s: Slot, p: MemberProc) {
    && (Expired(s) ==> s.member.status.certificateExpires && Both(s))
    && (p.Busy? ==>
          && (p.mem.status.certificateExpires ==> s.member.status.certificateExpires)
          && (Expired(s) ==> p.mem.status.certificateExpires))
  }

  predicate FlagOk(s: Slot, p: MemberProc, now: Time, i: nat, u: nat) {
    && FromPast(s, now)
    && (i != u ==> Noticed(s, p))
    && (i > u ==> Lower(s.member))
  }

  /** Neither waits for a new certificate nor needs one. */
  predicate Lower(m: Member) {
    !m.spec.certificateUpdate && !m.status.certificateExpires
  }

  predicate AllLower(slots: seq<Slot>, k: nat, u: nat) {
    forall j :: 0 <= j < k && j < |slots| && j != u ==> Lower(slots[j].member)
  }

  predicate RequestsOk(slots: seq<Slot>, u: nat) {
    forall k :: 0 <= k < |slots| && slots[k].member.spec.certificateUpdate ==> k <= u && AllLower(slots, k, u)
  }

  predicate WorkerKnows(slots: seq<Slot>, p: ClusterProc, u: nat) {
    match p
    case EnsurePass(_, read) => !AnyExpiry(read) ==> AllLower(slots, |read|, u)
    case UpdatePass(c, i) => AllLower(slots, i, u) && (!c.status.certificateExpires ==> AllLower(slots, |slots|, u))
    case RotationWrite(c, i, _) =>
      AllLower(slots, i, u) && (!c.status.certificateExpires ==> AllLower(slots, |slots|, u))
    case RepairPass(c, _, _) => c.status.phase == ClusterMinorFailure
    case BreakWrite(c, _, _) => c.status.phase == ClusterMinorFailure
    case _ => true
  }

  predicate FlagsOk(s: Sys, u: nat) {
    |s.procs| == |s.w.slots|
    && forall i :: 0 <= i < |s.procs| ==> FlagOk(s.w.slots[i], s.procs[i], s.w.now, i, u)
  }

  ghost predicate RotationInv(s: Sys, size: int, u: nat) {
    Inv(s, size) && FlagsOk(s, u) && RequestsOk(s.w.slots, u) && WorkerKnows(s.w.slots, s.cluster, u)
  }

  /** A step after which flags, except that of u, have only been lowered and requests are as before. */
  predicate FlagsFall(a: seq<Slot>, b: seq<Slot>, u: nat) {
    |a| == |b|
    && forall k :: 0 <= k < |a| ==>
         b[k].member.spec.certificateUpdate == a[k].member.spec.certificateUpdate
         && (k != u && b[k].member.status.certificateExpires ==> a[k].member.status.certificateExpires)
  }

  lemma FallKeeps(a: seq<Slot>, b: seq<Slot>, p: ClusterProc, u: nat)
    requires FlagsFall(a, b, u) && RequestsOk(a, u) && WorkerKnows(a, p, u)
    ensures RequestsOk(b, u) && WorkerKnows(b, p, u)
  {
  }

  lemma MemberCallFlags(i: nat, pc: MemberPc, v: View, now: Time, u: nat)
    requires SlotOk(v.slot) && ProcOk(v.slot, Busy(pc, v.mem))
    requires FlagOk(v.slot, Busy(pc, v.mem), now, i, u) && now > ZERO_TIME
    ensures var r := MemberCallAt(i, pc, v, now);
            FlagOk(r.slot, r.proc, now, i, u)
            && r.slot.member.spec.certificateUpdate == v.slot.member.spec.certificateUpdate
            && (i != u && r.slot.member.status.certificateExpires ==> v.slot.member.status.certificateExpires)
  {
    if InRepair(pc) {
      RepairCallFlags(i, pc, v, now, u);
    } else if pc.FinalStatus? {
    } else {
      ForwardCallFlags(i, pc, v, now, u);
    }
  }

  lemma RepairCallFlags(i: nat, pc: MemberPc, v: View, now: Time, u: nat)
    requires SlotOk(v.slot) && InRepair(pc) && RepairOk(v.slot, pc, v.mem) && FlagOk(v.slot, Busy(pc, v.mem), now, i, u)
    ensures var r := MemberCallAt(i, pc, v, now);
            FlagOk(r.slot, r.proc, now, i, u)
            && r.slot.member.spec.certificateUpdate == v.slot.member.spec.certificateUpdate
            && r.slot.member.status.certificateExpires == v.slot.member.status.certificateExpires
  {
  }

  lemma ForwardCallFlags(i: nat, pc: MemberPc, v: View, now: Time, u: nat)
    requires SlotOk(v.slot) && !InRepair(pc) && !pc.FinalStatus? && ForwardOk(v.slot, pc, v.mem)
    requires FlagOk(v.slot, Busy(pc, v.mem), now, i, u) && now > ZERO_TIME
    ensures var r := MemberCallAt(i, pc, v, now);
            FlagOk(r.slot, r.proc, now, i, u) && r.slot.member == v.slot.member
  {
  }

  lemma HalfCallFlags(i: nat, pc: MemberPc, v: View, now: Time, u: nat)
    requires SlotOk(v.slot) && (pc.Certificates? || pc.Expiry?) && ForwardOk(v.slot, pc, v.mem)
    requires FlagOk(v.slot, Busy(pc, v.mem), now, i, u) && now > ZERO_TIME
    ensures var r := HalfCallAt(pc, v);
            FlagOk(r.slot, r.proc, now, i, u) && r.slot.member == v.slot.member
  {
  }

  lemma EnvFlags(i: nat, s: Slot, p: MemberProc, e: EnvStep, now: Time, u: nat)
    requires SlotOk(s) && FlagOk(s, p, now, i, u)
    requires e.CertIssued? ==> !WasIssued(if e.peer then s.peerCert else s.clientCert)
    ensures FlagOk(EnvSlot(s, e, now), p, now, i, u)
  {
  }

  lemma MemberCalledFlags(s: Sys, i: nat, size: int, u: nat)
    requires Inv(s, size) && FlagsOk(s, u) && i < |s.procs| && s.procs[i].Busy?
    ensures FlagsOk(MemberCalled(s, i), u) && FlagsFall(s.w.slots, MemberCalled(s, i).w.slots, u)
  {
    var p := s.procs[i];
    assert SlotOk(s.w.slots[i]) && ProcOk(s.w.slots[i], p) && FlagOk(s.w.slots[i], p, s.w.now, i, u);
    MemberCallFlags(i, p.pc, View(p.mem, s.w.slots[i], s.w.etcd), s.w.now, u);
  }

  lemma MemberHalvedFlags(s: Sys, i: nat, size: int, u: nat)
    requires Inv(s, size) && FlagsOk(s, u) && InHalves(s, i)
    ensures FlagsOk(MemberHalved(s, i), u) && FlagsFall(s.w.slots, MemberHalved(s, i).w.slots, u)
  {
    var p := s.procs[i];
    assert SlotOk(s.w.slots[i]) && ProcOk(s.w.slots[i], p) && FlagOk(s.w.slots[i], p, s.w.now, i, u);
    HalfCallFlags(i, p.pc, View(p.mem, s.w.slots[i], s.w.etcd), s.w.now, u);
  }

  lemma EnvStepFlags(s: Sys, e: EnvStep, size: int, u: nat)
    requires Inv(s, size) && FlagsOk(s, u) && !Renews(s, Environment(e))
    ensures FlagsOk(Apply(s, Environment(e)), u) && FlagsFall(s.w.slots, Env(s.w, e).slots, u)
  {
    if !e.Tick? && !e.UserEdit? && !e.EtcdStarted? && e.i < |s.w.slots| {
      var slot, p := s.w.slots[e.i], s.procs[e.i];
      assert SlotOk(slot) && ProcOk(slot, p) && FlagOk(slot, p, s.w.now, e.i, u);
      EnvSlotOk(slot, p, e, s.w.now);
      EnvFlags(e.i, slot, p, e, s.w.now, u);
    }
  }

  lemma LocalStepFlags(s: Sys, step: Step, size: int, u: nat)
    requires Inv(s, size) && FlagsOk(s, u) && !Renews(s, step) && !step.ClusterCall? && !step.ClusterStart?
    ensures FlagsOk(Apply(s, step), u) && FlagsFall(s.w.slots, Apply(s, step).w.slots, u)
  {
    match step
    case MemberCall(i) =>
      if i < |s.procs| && s.procs[i].Busy? {
        MemberCalledFlags(s, i, size, u);
      }
    case MemberHalf(i) =>
      if InHalves(s, i) {
        MemberHalvedFlags(s, i, size, u);
      }
    case Environment(e) => EnvStepFlags(s, e, size, u);
    case _ =>
  }

  // ----- the cluster's worker

  lemma AssessKnows(slots: seq<Slot>, c: Cluster, read: seq<Member>, now: Time, size: int, u: nat)
    requires c.spec.size == size && |read| <= Count(size) && |slots| <= Count(size)
    requires !AnyExpiry(read) ==> AllLower(slots, |read|, u)
    ensures WorkerKnows(slots, EnsureNext(c, read, now), u)
  {
  }

  lemma EnsuredFlags(s: Sys, c: Cluster, i: nat, size: int, u: nat)
    requires RotationInv(s, size, u) && c.spec.size == size && i <= |s.w.slots| && i < Count(size)
    ensures var t := Ensured(s, c, i);
            && FlagsOk(t, u) && RequestsOk(t.w.slots, u) && |s.w.slots| <= |t.w.slots| <= Count(size)
            && (AllLower(s.w.slots, i, u) ==> AllLower(t.w.slots, i, u))
  {
    var t := Ensured(s, c, i);
    EnsuredInv(s, c, i, size);
    forall j | 0 <= j < |t.w.slots|
      ensures t.w.slots[j] == if j < |s.w.slots| then s.w.slots[j] else NewSlot(GetMember(c, j))
    {
      EnsureSlotsAt(c, s.w.slots, i + 1, j);
    }
  }

  lemma EnsurePassFlags(s: Sys, size: int, u: nat)
    requires RotationInv(s, size, u) && s.cluster.EnsurePass?
    ensures var t := ClusterCalled(s);
            FlagsOk(t, u) && RequestsOk(t.w.slots, u) && WorkerKnows(t.w.slots, t.cluster, u)
  {
    var c, read := s.cluster.c, s.cluster.read;
    var t := Ensured(s, c, |read|);
    EnsuredFlags(s, c, |read|, size, u);
    var m := t.w.slots[|read|].member;
    Appended(read, m);
    assert !AnyExpiry(read + [m]) ==> AllLower(t.w.slots, |read| + 1, u);
    AssessKnows(t.w.slots, c, read + [m], s.w.now, size, u);
  }

  lemma UpdateReadKnows(slots: seq<Slot>, c: Cluster, i: nat, u: nat)
    requires i < |slots| && AllLower(slots, i, u) && (!c.status.certificateExpires ==> AllLower(slots, |slots|, u))
    ensures WorkerKnows(slots, UpdateRead(c, i, slots[i].member), u)
  {
  }

  lemma OtherPassFlags(s: Sys, size: int, u: nat)
    requires RotationInv(s, size, u) && (s.cluster.RepairPass? || s.cluster.UpdatePass?)
    ensures ClusterCalled(s).w == s.w && ClusterCalled(s).procs == s.procs
    ensures WorkerKnows(s.w.slots, ClusterCalled(s).cluster, u)
  {
    if s.cluster.UpdatePass? {
      PresentEnsured(s, s.cluster.c, s.cluster.i);
      UpdateReadKnows(s.w.slots, s.cluster.c, s.cluster.i, u);
    } else {
      PresentEnsured(s, s.cluster.c, |s.cluster.read|);
    }
  }

  lemma SpecWrittenFlags(s: Sys, i: nat, spec: MemberSpec, next: ClusterProc, u: nat)
    requires FlagsOk(s, u) && i < |s.w.slots|
    requires spec.certificateUpdate == s.w.slots[i].member.spec.certificateUpdate
    ensures var slots := s.w.slots[i := WithSpec(s.w.slots[i], spec)];
            FlagsOk(s.(w := s.w.(slots := slots), cluster := next), u) && FlagsFall(s.w.slots, slots, u)
  {
    assert FlagOk(s.w.slots[i], s.procs[i], s.w.now, i, u);
  }

  lemma VersionWriteFlags(s: Sys, size: int, u: nat)
    requires RotationInv(s, size, u) && s.cluster.VersionWrite?
    ensures var t := ClusterCalled(s);
            FlagsOk(t, u) && FlagsFall(s.w.slots, t.w.slots, u) && t.cluster.StatusWrite?
  {
    var c, i, m := s.cluster.c, s.cluster.i, s.cluster.m;
    if Current(s.w.slots, i, m) {
      SpecWrittenFlags(s, i, m.spec.(version := c.spec.version), StatusWrite(c), u);
    }
  }

  lemma BreakWriteFlags(s: Sys, size: int, u: nat)
    requires RotationInv(s, size, u) && s.cluster.BreakWrite?
    ensures var t := ClusterCalled(s);
            FlagsOk(t, u) && FlagsFall(s.w.slots, t.w.slots, u) && t.cluster.StatusWrite?
  {
    var c, read := s.cluster.c, s.cluster.read;
    var i := Oldest(read, s.cluster.cutoff).value;
    assert !c.ShouldUpdate();
    if Current(s.w.slots, i, read[i]) {
      assert Read(read[i], s.w.slots[i].member);
      SpecWrittenFlags(s, i, read[i].spec.(broken := true), AfterRepair(c), u);
    }
  }

  /** slots with the request of member i set or taken back as its flag says. */
  predicate RequestWritten(a: seq<Slot>, b: seq<Slot>, i: nat) {
    i < |a| == |b| && (forall k :: 0 <= k < |a| && k != i ==> b[k] == a[k])
    && b[i].member.status == a[i].member.status
    && b[i].member.spec.certificateUpdate == a[i].member.status.certificateExpires
  }

  lemma Requested(a: seq<Slot>, b: seq<Slot>, i: nat, u: nat)
    requires RequestWritten(a, b, i) && i <= u && RequestsOk(a, u) && AllLower(a, i, u)
    requires a[i].member.status.certificateExpires
    ensures RequestsOk(b, u)
  {
    assert AllLower(b, i, u);
    forall k | 0 <= k < |b| && k != i
      ensures !b[k].member.spec.certificateUpdate
    {
      assert k < i ==> Lower(a[k].member);
      assert k > i && a[k].member.spec.certificateUpdate ==> Lower(a[i].member);
    }
  }

  lemma TakenBack(a: seq<Slot>, b: seq<Slot>, i: nat, u: nat)
    requires RequestWritten(a, b, i) && RequestsOk(a, u) && !a[i].member.status.certificateExpires
    ensures RequestsOk(b, u) && forall k: nat :: AllLower(a, k, u) ==> AllLower(b, k, u)
    ensures AllLower(a, i, u) ==> AllLower(b, i + 1, u)
  {
  }

  lemma RotationWriteFlags(s: Sys, size: int, u: nat)
    requires RotationInv(s, size, u) && s.cluster.RotationWrite?
    ensures var t := ClusterCalled(s);
            FlagsOk(t, u) && RequestsOk(t.w.slots, u) && WorkerKnows(t.w.slots, t.cluster, u)
  {
    var c, i, m := s.cluster.c, s.cluster.i, s.cluster.m;
    if Current(s.w.slots, i, m) {
      var t := ClusterCalled(s);
      assert m == s.w.slots[i].member && FlagOk(s.w.slots[i], s.procs[i], s.w.now, i, u);
      assert RequestWritten(s.w.slots, t.w.slots, i);
      if m.status.certificateExpires {
        Requested(s.w.slots, t.w.slots, i, u);
      } else {
        TakenBack(s.w.slots, t.w.slots, i, u);
      }
    }
  }

  lemma ClusterCallFlags(s: Sys, size: int, u: nat)
    requires RotationInv(s, size, u)
    ensures var t := ClusterCalled(s);
            FlagsOk(t, u) && RequestsOk(t.w.slots, u) && WorkerKnows(t.w.slots, t.cluster, u)
  {
    match s.cluster
    case ClusterIdle =>
    case StatusWrite(_) =>
    case EnsurePass(_, _) => EnsurePassFlags(s, size, u);
    case RepairPass(_, _, _) => OtherPassFlags(s, size, u);
    case UpdatePass(_, _) => OtherPassFlags(s, size, u);
    case RotationWrite(_, _, _) => RotationWriteFlags(s, size, u);
    case VersionWrite(_, _, _) =>
      VersionWriteFlags(s, size, u);
      FallKeeps(s.w.slots, ClusterCalled(s).w.slots, ClusterIdle, u);
    case BreakWrite(_, _, _) =>
      BreakWriteFlags(s, size, u);
      FallKeeps(s.w.slots, ClusterCalled(s).w.slots, ClusterIdle, u);
  }

  lemma LocalStepKeeps(s: Sys, step: Step, size: int, u: nat)
    requires RotationInv(s, size, u) && !Renews(s, step) && !step.ClusterCall? && !step.ClusterStart?
    ensures var t := Apply(s, step);
            FlagsOk(t, u) && RequestsOk(t.w.slots, u) && WorkerKnows(t.w.slots, t.cluster, u)
  {
    LocalStepFlags(s, step, size, u);
    FallKeeps(s.w.slots, Apply(s, step).w.slots, s.cluster, u);
  }

  lemma StepKeeps(s: Sys, step: Step, size: int, u: nat)
    requires RotationInv(s, size, u) && !Renews(s, step)
    ensures RotationInv(Apply(s, step), size, u)
  {
    StepInv(s, step, size);
    if step.ClusterCall? {
      ClusterCallFlags(s, size, u);
    } else if step.ClusterStart? {
      AssessKnows(s.w.slots, Opened(s.w.cluster), [], s.w.now, size, u);
    } else {
      LocalStepKeeps(s, step, size, u);
    }
  }

  lemma {:induction false} CalmRun(s: Sys, steps: seq<Step>, size: int, u: nat)
    requires Inv(s, size) && Calm(s, u) && NoRenewals(s, steps)
    ensures RotationInv(Run(s, steps), size, u)
  {
    if steps != [] {
      var before := steps[..|steps| - 1];
      assert forall k :: 0 <= k < |before| ==> before[..k] == steps[..k] && before[k] == steps[k];
      CalmRun(s, before, size, u);
      assert before == steps[..|before|];
      StepKeeps(Run(s, before), steps[|steps| - 1], size, u);
    }
  }

  // ----- results

  /** At most one member at a time is asked to take a new certificate, and while it is, no lower
      member is asked or has its flag up. */
  lemma OneRequest(s: Sys, steps: seq<Step>, size: int, u: nat, i: nat, j: nat)
    requires Inv(s, size) && Calm(s, u) && NoRenewals(s, steps)
    ensures var slots := Run(s, steps).w.slots;
            i < |slots| && slots[i].member.spec.certificateUpdate ==>
              && (j < i ==> Lower(slots[j].member))
              && (j < |slots| && slots[j].member.spec.certificateUpdate ==> i == j)
  {
    CalmRun(s, steps, size, u);
    var slots := Run(s, steps).w.slots;
    if i < |slots| && j < |slots| && slots[i].member.spec.certificateUpdate && slots[j].member.spec.certificateUpdate {
      assert AllLower(slots, i, u) && AllLower(slots, j, u);
    }
  }
}
