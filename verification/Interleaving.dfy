/** Both controllers at the granularity of single API calls.

    The cluster controller and one worker for each member take their calls in any order, between
    moves of the environment. A call may fail, and a worker may be lost at any point; the next
    reconcile then starts from what was stored. Every state a run can reach is Run(start, steps)
    for some list of steps; a step that is not enabled changes nothing. */

module Interleaving {
  import opened Wrappers
  import opened Api
  import opened Etcd
  import opened Objects
  import opened MemberController
  import opened ClusterController

  // ----- a reconcile of one member

  /** The next call of a member's worker. */
  datatype MemberPc =
    | RepairPod | RepairPvc | EtcdList | EtcdRemove(ids: seq<nat>) | EtcdAdd | SetRecreating | UnsetBroken
    | Certificates | Expiry | Claim | ReplacePod | CheckPod
    | FinalStatus

  datatype MemberProc = Idle | Busy(pc: MemberPc, mem: Member)

  datatype Moved = Moved(proc: MemberProc, slot: Slot, etcd: Membership)

  function At(v: View, pc: MemberPc): Moved {
    Moved(Busy(pc, v.mem), v.slot, v.etcd)
  }

  function After(r: Reply, pc: MemberPc): Moved {
    At(r.view, if r.stop then FinalStatus else pc)
  }

  function RemoveNext(ids: seq<nat>): MemberPc {
    if ids == [] then EtcdAdd else EtcdRemove(ids)
  }

  function MemberBegin(stored: Member): MemberProc {
    Busy(if stored.spec.broken then RepairPod else Certificates, stored)
  }

  function MemberCallAt(i: nat, pc: MemberPc, v: View, now: Time): Moved {
    match pc
    case RepairPod => After(DeletePod(v), RepairPvc)
    case RepairPvc => After(DeletePVC(v), EtcdList)
    case EtcdList => At(v, RemoveNext(NamedIds(v.etcd.entries, i)))
    case EtcdRemove(ids) =>
      if ids == [] then At(v, EtcdAdd)
      else if HasId(v.etcd.entries, ids[0]) then
        At(v.(etcd := v.etcd.(entries := Without(v.etcd.entries, ids[0]))), RemoveNext(ids[1..]))
      else At(v, FinalStatus)
    case EtcdAdd => After(AddPeer(i, v), SetRecreating)
    case SetRecreating => At(WriteRecreating(v), UnsetBroken)
    case UnsetBroken => At(ClearBroken(v), Certificates)
    case Certificates => After(EnsureCertificates(v), Expiry)
    case Expiry => At(CheckCertificateExpires(v), Claim)
    case Claim => After(EnsurePVC(v), if v.mem.ShouldUpdate() then ReplacePod else CheckPod)
    case ReplacePod => After(UpdatePod(v), CheckPod)
    case CheckPod => At(EnsurePod(v, now), FinalStatus)
    case FinalStatus => var w := WriteStatus(v); Moved(Idle, w.slot, w.etcd)
  }

  /** The stages of two certificates when the first one is dealt with and the call for the second one fails. */
  function HalfCallAt(pc: MemberPc, v: View): Moved
    requires pc.Certificates? || pc.Expiry?
  {
    if pc.Expiry? then After(CheckReads(v, 1), Claim)
    else if v.slot.clientCert.None? then At(v.(slot := v.slot.(clientCert := Some(ZERO_TIME))), FinalStatus)
    else At(v, FinalStatus)
  }

  /** The two writes of a repair go on after a conflict, which WriteStatus and WriteSpec model. */
  predicate MayFail(pc: MemberPc) {
    !pc.SetRecreating? && !pc.UnsetBroken? && !pc.FinalStatus?
  }

  // ----- a reconcile of the cluster

  /** The next call of the cluster's worker. The loop variables of a pass are functions of the
      members it has read so far. */
  datatype ClusterProc =
    | ClusterIdle
    | EnsurePass(c: Cluster, read: seq<Member>)
    | RepairPass(c: Cluster, cutoff: Time, read: seq<Member>)
    | BreakWrite(c: Cluster, cutoff: Time, read: seq<Member>)
    | UpdatePass(c: Cluster, i: nat)
    | VersionWrite(c: Cluster, i: nat, m: Member)
    | RotationWrite(c: Cluster, i: nat, m: Member)
    | StatusWrite(c: Cluster)

  function UpdateNext(c: Cluster, i: nat): ClusterProc {
    if i < Count(c.spec.size) then UpdatePass(c, i)
    else StatusWrite(WithVersion(c.(status := c.status.(phase := ClusterRunning, certificateExpires := false))))
  }

  function AfterRepair(c: Cluster): ClusterProc {
    if c.ShouldUpdate() then UpdateNext(c, 0) else StatusWrite(WithVersion(c))
  }

  function RepairNext(c: Cluster, cutoff: Time, read: seq<Member>): ClusterProc {
    if |read| < Count(c.spec.size) then RepairPass(c, cutoff, read)
    else if Oldest(read, cutoff).None? then StatusWrite(c)
    else if CountFailed(read) * 2 > c.spec.size then AfterRepair(c)
    else BreakWrite(c, cutoff, read)
  }

  function EnsureNext(c: Cluster, read: seq<Member>, now: Time): ClusterProc {
    if |read| < Count(c.spec.size) then EnsurePass(c, read)
    else
      var assessed := Assess(c, read);
      if assessed.status.phase == ClusterMinorFailure then RepairNext(assessed, now - MINOR_FAILED_TIMEOUT, [])
      else AfterRepair(assessed)
  }

  function ClusterBegin(c: Cluster, prepared: bool, now: Time): ClusterProc {
    if prepared then EnsureNext(Opened(c), [], now) else StatusWrite(Opened(c))
  }

  /** What follows the read of member i in the update loop. */
  function UpdateRead(c: Cluster, i: nat, m: Member): ClusterProc {
    if m.IsCreating() || m.status.phase == Updating then StatusWrite(c)
    else if c.spec.version != m.spec.version then VersionWrite(WithClusterPhase(c, ClusterUpdating), i, m)
    else if c.status.certificateExpires || m.spec.certificateUpdate then RotationWrite(c, i, m)
    else if c.spec.version != m.status.version then StatusWrite(c)
    else UpdateNext(c, i + 1)
  }

  function Rotated(c: Cluster, i: nat, m: Member): ClusterProc {
    if m.status.certificateExpires then StatusWrite(WithClusterPhase(c, ClusterUpdating))
    else if c.spec.version != m.status.version then StatusWrite(c)
    else UpdateNext(c, i + 1)
  }

  predicate Current(slots: seq<Slot>, i: nat, m: Member) {
    i < |slots| && slots[i].member.resourceVersion == m.resourceVersion
  }

  // ----- the system

  datatype Sys = Sys(w: World, cluster: ClusterProc, procs: seq<MemberProc>)

  datatype Step =
    | ClusterStart(prepared: bool) | ClusterCall | ClusterFail | ClusterCrash
    | MemberStart(i: nat) | MemberCall(i: nat) | MemberHalf(i: nat) | MemberFail(i: nat) | MemberCrash(i: nat)
    | Environment(e: EnvStep)

  function Ensured(s: Sys, c: Cluster, i: nat): (r: Sys)
    ensures i < |r.w.slots|
  {
    var slots := EnsureSlots(c, s.w.slots, i + 1);
    s.(w := s.w.(slots := slots),
       procs := s.procs + seq(|slots| - |s.w.slots|, k => Idle))
  }

  lemma PresentEnsured(s: Sys, c: Cluster, i: nat)
    requires i < |s.w.slots|
    ensures Ensured(s, c, i) == s
  {
    forall j | 0 <= j < |s.w.slots|
      ensures EnsureSlots(c, s.w.slots, i + 1)[j] == s.w.slots[j]
    {
      EnsureSlotsAt(c, s.w.slots, i + 1, j);
    }
    assert Ensured(s, c, i).w.slots == s.w.slots;
    assert Ensured(s, c, i).procs == s.procs;
  }

  /** r.Update of a member's spec by the cluster controller. */
  function Written(s: Sys, i: nat, m: Member, spec: MemberSpec, next: ClusterProc, failed: ClusterProc): Sys {
    if Current(s.w.slots, i, m) then
      s.(w := s.w.(slots := s.w.slots[i := WithSpec(s.w.slots[i], spec)]), cluster := next)
    else s.(cluster := failed)
  }

  function ClusterCalled(s: Sys): Sys {
    match s.cluster
    case ClusterIdle => s
    case EnsurePass(c, read) =>
      var t := Ensured(s, c, |read|);
      t.(cluster := EnsureNext(c, read + [t.w.slots[|read|].member], s.w.now))
    case RepairPass(c, cutoff, read) =>
      var t := Ensured(s, c, |read|);
      var m := t.w.slots[|read|].member;
      t.(cluster := if Blocks(m) then StatusWrite(c) else RepairNext(c, cutoff, read + [m]))
    case BreakWrite(c, cutoff, read) =>
      var best := Oldest(read, cutoff);
      if best.None? then s else
        var m := read[best.value];
        Written(s, best.value, m, m.spec.(broken := true), AfterRepair(c), StatusWrite(c))
    case UpdatePass(c, i) =>
      var t := Ensured(s, c, i);
      t.(cluster := UpdateRead(c, i, t.w.slots[i].member))
    case VersionWrite(c, i, m) =>
      Written(s, i, m, m.spec.(version := c.spec.version), StatusWrite(c), StatusWrite(c))
    case RotationWrite(c, i, m) =>
      Written(s, i, m, m.spec.(certificateUpdate := m.status.certificateExpires), Rotated(c, i, m), StatusWrite(c))
    case StatusWrite(c) => s.(w := s.w.(cluster := PutClusterStatus(s.w.cluster, c)), cluster := ClusterIdle)
  }

  function CallFailed(s: Sys): Sys {
    match s.cluster
    case BreakWrite(c, _, _) => s.(cluster := StatusWrite(c))
    case VersionWrite(c, _, _) => s.(cluster := StatusWrite(c))
    case RotationWrite(c, _, _) => s.(cluster := StatusWrite(c))
    case _ => s
  }

  function MemberCalled(s: Sys, i: nat): Sys
    requires i < |s.w.slots| && i < |s.procs| && s.procs[i].Busy?
  {
    var p := s.procs[i];
    var r := MemberCallAt(i, p.pc, View(p.mem, s.w.slots[i], s.w.etcd), s.w.now);
    Sys(s.w.(slots := s.w.slots[i := r.slot], etcd := r.etcd), s.cluster, s.procs[i := r.proc])
  }

  predicate InHalves(s: Sys, i: nat) {
    i < |s.w.slots| && i < |s.procs| && s.procs[i].Busy? && (s.procs[i].pc.Certificates? || s.procs[i].pc.Expiry?)
  }

  function MemberHalved(s: Sys, i: nat): Sys
    requires InHalves(s, i)
  {
    var r := HalfCallAt(s.procs[i].pc, View(s.procs[i].mem, s.w.slots[i], s.w.etcd));
    s.(w := s.w.(slots := s.w.slots[i := r.slot]), procs := s.procs[i := r.proc])
  }

  function Apply(s: Sys, step: Step): Sys {
    match step
    case ClusterStart(prepared) =>
      if s.cluster.ClusterIdle? then s.(cluster := ClusterBegin(s.w.cluster, prepared, s.w.now)) else s
    case ClusterCall => ClusterCalled(s)
    case ClusterFail => CallFailed(s)
    case ClusterCrash => s.(cluster := ClusterIdle)
    case MemberStart(i) =>
      if i < |s.w.slots| && i < |s.procs| && s.procs[i].Idle? then
        s.(procs := s.procs[i := MemberBegin(s.w.slots[i].member)])
      else s
    case MemberCall(i) =>
      if i < |s.w.slots| && i < |s.procs| && s.procs[i].Busy? then MemberCalled(s, i) else s
    case MemberHalf(i) =>
      if InHalves(s, i) then MemberHalved(s, i) else s
    case MemberFail(i) =>
      if i < |s.procs| && s.procs[i].Busy? && MayFail(s.procs[i].pc) then
        s.(procs := s.procs[i := Busy(FinalStatus, s.procs[i].mem)])
      else s
    case MemberCrash(i) =>
      if i < |s.procs| then s.(procs := s.procs[i := Idle]) else s
    case Environment(e) => s.(w := Env(s.w, e))
  }

  function Run(s: Sys, steps: seq<Step>): Sys {
    if steps == [] then s else Apply(Run(s, steps[..|steps| - 1]), steps[|steps| - 1])
  }

  function Start(w: World): Sys {
    Sys(w, ClusterIdle, seq(|w.slots|, k => Idle))
  }

  /** A write from a copy that is not what is stored any more changes nothing, and the cluster's worker goes on with
      the status write of what it has: nothing new is reported after a lost race. */
  lemma LostRace(s: Sys)
    requires s.cluster.VersionWrite? || s.cluster.RotationWrite? || s.cluster.BreakWrite?
    ensures (s.cluster.VersionWrite? || s.cluster.RotationWrite?) && !Current(s.w.slots, s.cluster.i, s.cluster.m) ==>
              ClusterCalled(s) == s.(cluster := StatusWrite(s.cluster.c))
    ensures s.cluster.BreakWrite? ==>
              var best := Oldest(s.cluster.read, s.cluster.cutoff);
              best.Some? && !Current(s.w.slots, best.value, s.cluster.read[best.value]) ==>
                ClusterCalled(s) == s.(cluster := StatusWrite(s.cluster.c))
    ensures CallFailed(s) == s.(cluster := StatusWrite(s.cluster.c))
  {
  }

  /** Nor does one of a member's worker. */
  lemma LostMemberRace(v: View)
    requires v.mem.resourceVersion != v.slot.member.resourceVersion
    ensures WriteStatus(v) == v && WriteSpec(v) == v
  {
  }
}
