/** What every state of every interleaved run satisfies. */

module Invariant {
  import opened Wrappers
  import opened Api
  import opened Etcd
  import opened Objects
  import opened Topology
  import opened MemberController
  import opened ClusterController
  import opened Interleaving

  // ----- one member

  predicate Served(phase: MemberPhase) {
    phase == Running || phase == Updating || phase == Failed
  }

  /** Phase changes that the final status write of a reconcile makes. */
  predicate FinalEdge(a: MemberPhase, b: MemberPhase) {
    a == b || (b == Running && (a == NoPhase || a == Updating || a == Failed || a == Recreating))
    || (a == Running && (b == Failed || b == Updating))
  }

  predicate Dirty(m: Member) {
    m.spec.broken || m.status.phase == Recreating
  }

  /** m was read from stored, or written to it, and stored may have moved on since. */
  predicate Snapshot(m: Member, stored: Member) {
    m.resourceVersion <= stored.resourceVersion
    && (m.resourceVersion == stored.resourceVersion ==> m.spec == stored.spec)
  }

  predicate SlotOk(s: Slot) {
    && s.member.status.phase != Creating
    && (s.member.spec.broken ==> s.member.status.phase == Failed || s.member.status.phase == Recreating)
    && (s.pod.Some? ==> s.pvc.Some? && !s.pvc.value.terminating && s.Issued())
    && (s.PodReady() ==> s.pvc.Some? && s.pvc.value.seenReady)
    && (s.pvc.Some? && s.pvc.value.terminating ==> s.member.spec.broken)
    && (!s.member.spec.broken && Served(s.member.status.phase) ==> s.UsedVolume())
    && (s.FreshVolume() ==>
          s.member.status.phase == Recreating && !s.member.spec.broken
          && (s.pod.Some? ==> s.pod.value.state == Existing && !s.pod.value.restore))
  }

  predicate InRepair(pc: MemberPc) {
    pc.RepairPod? || pc.RepairPvc? || AfterTeardown(pc)
  }

  predicate AfterTeardown(pc: MemberPc) {
    pc.EtcdList? || pc.EtcdRemove? || pc.EtcdAdd? || pc.SetRecreating? || pc.UnsetBroken?
  }

  predicate RepairOk(s: Slot, pc: MemberPc, mem: Member) {
    && mem == s.member && mem.spec.broken
    && (!pc.RepairPod? ==> s.pod.None?)
    && (AfterTeardown(pc) ==> s.pvc.None?)
    && (pc.UnsetBroken? ==> mem.status.phase == Recreating)
  }

  predicate ForwardOk(s: Slot, pc: MemberPc, mem: Member) {
    && Snapshot(mem, s.member) && !mem.spec.broken
    && (s.member.spec.broken ==> s.member.status.phase == Failed)
    && (s.pvc.Some? ==> !s.pvc.value.terminating)
    && mem.status.version == s.member.status.version
    && mem.status.failedTime == s.member.status.failedTime
    && (mem.status.phase == s.member.status.phase
        || (pc.CheckPod? && mem.status.phase == Updating && s.member.status.phase == Running))
    && (!pc.Certificates? ==> s.Issued())
    && (Served(mem.status.phase) ==> s.UsedVolume())
    && (pc.ReplacePod? || pc.CheckPod? ==> s.pvc.Some?)
    && (pc.ReplacePod? ==> mem.status.phase == Running)
  }

  predicate FinalOk(s: Slot, mem: Member) {
    && Snapshot(mem, s.member)
    && (mem.spec.broken ==> mem.status == s.member.status)
    && (!mem.spec.broken ==>
          && (s.pvc.Some? ==> !s.pvc.value.terminating)
          && FinalEdge(s.member.status.phase, mem.status.phase)
          && (Served(mem.status.phase) ==> s.UsedVolume())
          && (s.FreshVolume() ==> mem.status.phase == Recreating)
          && (mem.status.version == s.member.status.version || mem.status.version == mem.spec.version))
  }

  predicate ProcOk(s: Slot, p: MemberProc) {
    match p
    case Idle => true
    case Busy(pc, mem) =>
      if InRepair(pc) then RepairOk(s, pc, mem)
      else if pc.FinalStatus? then FinalOk(s, mem)
      else ForwardOk(s, pc, mem)
  }

  // ----- etcd

  ghost predicate AllDistinct(entries: seq<Entry>) {
    forall a, b :: 0 <= a < b < |entries| ==> entries[a].peer != entries[b].peer && entries[a].id != entries[b].id
  }

  ghost predicate ListOk(m: Membership, n: nat) {
    && AllDistinct(m.entries)
    && (forall k :: 0 <= k < |m.entries| ==> m.entries[k].peer < n && m.entries[k].id < m.nextId)
    && (forall k :: 0 <= k < |m.entries| && m.entries[k].name.Some? ==> m.entries[k].name == Some(m.entries[k].peer))
  }

  ghost predicate OwnIds(i: nat, m: Membership, ids: seq<nat>) {
    forall id :: id in ids ==>
      id < m.nextId && forall k :: 0 <= k < |m.entries| && m.entries[k].id == id ==> m.entries[k].peer == i
  }

  ghost predicate ProcListOk(i: nat, p: MemberProc, m: Membership) {
    p.Busy? ==>
      && (p.pc.EtcdRemove? ==> OwnIds(i, m, p.pc.ids))
      && (p.pc.SetRecreating? || p.pc.UnsetBroken? ==> HasPeer(m.entries, i))
  }

  // ----- a call of a member's worker

  /** What one call of member i may do to the list: other peers stay, ids are not reused. */
  ghost predicate ListStep(i: nat, a: Membership, b: Membership) {
    && a.nextId <= b.nextId
    && (forall p: nat :: p != i ==> (HasPeer(a.entries, p) <==> HasPeer(b.entries, p)))
    && (forall k :: 0 <= k < |b.entries| ==> b.entries[k] in a.entries || b.entries[k].id >= a.nextId)
  }

  lemma {:induction false} WithoutDistinct(entries: seq<Entry>, id: nat)
    requires AllDistinct(entries)
    ensures AllDistinct(Without(entries, id))
  {
    if entries != [] {
      var last := |entries| - 1;
      WithoutDistinct(entries[..last], id);
      var before, r := Without(entries[..last], id), Without(entries, id);
      assert r == before || r == before + [entries[last]];
      forall k | 0 <= k < |before|
        ensures before[k].peer != entries[last].peer && before[k].id != entries[last].id
      {
        assert before[k] in before;
        var j :| 0 <= j < last && entries[..last][j] == before[k];
        assert entries[j] == before[k];
      }
      forall a, b | 0 <= a < b < |r|
        ensures r[a].peer != r[b].peer && r[a].id != r[b].id
      {
        assert r[a] == before[a];
        assert b < |before| ==> r[b] == before[b];
      }
    }
  }

  lemma WithoutOk(m: Membership, n: nat, i: nat, id: nat)
    requires ListOk(m, n)
    requires forall k :: 0 <= k < |m.entries| && m.entries[k].id == id ==> m.entries[k].peer == i
    ensures ListOk(m.(entries := Without(m.entries, id)), n)
    ensures ListStep(i, m, m.(entries := Without(m.entries, id)))
  {
    WithoutDistinct(m.entries, id);
    var r := Without(m.entries, id);
    assert forall k :: 0 <= k < |r| ==> r[k] in r && r[k] in m.entries;
    forall p: nat | p != i && HasPeer(m.entries, p)
      ensures HasPeer(r, p)
    {
      var k :| 0 <= k < |m.entries| && m.entries[k].peer == p;
      assert m.entries[k] in r;
    }
  }

  lemma AddOk(m: Membership, n: nat, i: nat)
    requires ListOk(m, n) && i < n && !HasPeer(m.entries, i)
    ensures ListOk(Add(m, i), n) && ListStep(i, m, Add(m, i)) && HasPeer(Add(m, i).entries, i)
  {
    var r := Add(m, i).entries;
    var last := |m.entries|;
    assert r[last].peer == i;
    assert forall k :: 0 <= k < last ==> r[k] == m.entries[k] && r[k] in m.entries;
    forall p: nat | p != i
      ensures HasPeer(m.entries, p) <==> HasPeer(r, p)
    {
      if HasPeer(m.entries, p) {
        var k :| 0 <= k < last && m.entries[k].peer == p;
        assert r[k].peer == p;
      }
    }
  }

  lemma NamedOwn(m: Membership, n: nat, i: nat)
    requires ListOk(m, n)
    ensures OwnIds(i, m, NamedIds(m.entries, i))
  {
  }

  ghost predicate ListMoved(i: nat, n: nat, v: View, r: Moved) {
    ListOk(r.etcd, n) && ListStep(i, v.etcd, r.etcd) && ProcListOk(i, r.proc, r.etcd)
  }

  lemma RemoveCall(i: nat, n: nat, ids: seq<nat>, v: View, now: Time)
    requires ListOk(v.etcd, n) && OwnIds(i, v.etcd, ids)
    ensures ListMoved(i, n, v, MemberCallAt(i, EtcdRemove(ids), v, now))
  {
    if ids != [] && HasId(v.etcd.entries, ids[0]) {
      assert ids[0] in ids;
      WithoutOk(v.etcd, n, i, ids[0]);
      var r := Without(v.etcd.entries, ids[0]);
      forall id | id in ids[1..]
        ensures id < v.etcd.nextId && forall k :: 0 <= k < |r| && r[k].id == id ==> r[k].peer == i
      {
        assert id in ids;
        forall k | 0 <= k < |r| && r[k].id == id
          ensures r[k].peer == i
        {
          assert r[k] in r && r[k] in v.etcd.entries;
        }
      }
    }
  }

  lemma MemberCallList(i: nat, n: nat, pc: MemberPc, v: View, now: Time)
    requires ListOk(v.etcd, n) && i < n && ProcListOk(i, Busy(pc, v.mem), v.etcd)
    ensures ListMoved(i, n, v, MemberCallAt(i, pc, v, now))
    ensures !pc.EtcdRemove? && HasPeer(v.etcd.entries, i) ==> HasPeer(MemberCallAt(i, pc, v, now).etcd.entries, i)
  {
    if pc.EtcdRemove? {
      RemoveCall(i, n, pc.ids, v, now);
    } else if pc.EtcdAdd? {
      if !HasPeer(v.etcd.entries, i) {
        AddOk(v.etcd, n, i);
      }
    } else {
      assert MemberCallAt(i, pc, v, now).etcd == v.etcd;
      NamedOwn(v.etcd, n, i);
    }
  }

  predicate SlotMoved(v: View, pc: MemberPc, r: Moved) {
    && SlotOk(r.slot) && ProcOk(r.slot, r.proc)
    && (FinalEdge(v.slot.member.status.phase, r.slot.member.status.phase)
        || (v.slot.member.status.phase == Failed && r.slot.member.status.phase == Recreating
            && v.slot.member.spec.broken && pc.SetRecreating?))
    && (r.slot.member.spec == v.slot.member.spec
        || (pc.UnsetBroken? && r.slot.member.spec == v.slot.member.spec.(broken := false)))
    && (Dirty(r.slot.member) ==> Dirty(v.slot.member))
    && v.slot.member.resourceVersion <= r.slot.member.resourceVersion
    && (v.slot.member.resourceVersion == r.slot.member.resourceVersion ==> v.slot.member == r.slot.member)
  }

  lemma RepairCallSlot(i: nat, pc: MemberPc, v: View, now: Time)
    requires SlotOk(v.slot) && InRepair(pc) && RepairOk(v.slot, pc, v.mem)
    ensures SlotMoved(v, pc, MemberCallAt(i, pc, v, now))
  {
  }

  lemma ForwardCallSlot(i: nat, pc: MemberPc, v: View, now: Time)
    requires SlotOk(v.slot) && !InRepair(pc) && !pc.FinalStatus? && !pc.CheckPod? && ForwardOk(v.slot, pc, v.mem)
    ensures SlotMoved(v, pc, MemberCallAt(i, pc, v, now))
  {
  }

  lemma CheckPodSlot(i: nat, v: View, now: Time)
    requires SlotOk(v.slot) && ForwardOk(v.slot, CheckPod, v.mem)
    ensures SlotMoved(v, CheckPod, MemberCallAt(i, CheckPod, v, now))
  {
  }

  lemma FinalCallSlot(i: nat, v: View, now: Time)
    requires SlotOk(v.slot) && FinalOk(v.slot, v.mem)
    ensures SlotMoved(v, FinalStatus, MemberCallAt(i, FinalStatus, v, now))
  {
  }

  /** A call of member i's worker keeps the slot and the worker's knowledge of it consistent, moves
      the stored phase along an edge of the life cycle, and only a broken member enters Recreating. */
  lemma MemberCallSlot(i: nat, pc: MemberPc, v: View, now: Time)
    requires SlotOk(v.slot) && ProcOk(v.slot, Busy(pc, v.mem))
    ensures SlotMoved(v, pc, MemberCallAt(i, pc, v, now))
  {
    if InRepair(pc) {
      RepairCallSlot(i, pc, v, now);
    } else if pc.FinalStatus? {
      FinalCallSlot(i, v, now);
    } else if pc.CheckPod? {
      CheckPodSlot(i, v, now);
    } else {
      ForwardCallSlot(i, pc, v, now);
    }
  }

  /** A call that gets halfway changes no member and no pod. */
  lemma HalfCallSlot(pc: MemberPc, v: View)
    requires SlotOk(v.slot) && ForwardOk(v.slot, pc, v.mem) && (pc.Certificates? || pc.Expiry?)
    ensures var r := HalfCallAt(pc, v);
            SlotOk(r.slot) && ProcOk(r.slot, r.proc) && r.proc.Busy? && (r.proc.pc.FinalStatus? || r.proc.pc.Claim?)
            && r.slot == v.slot.(clientCert := r.slot.clientCert)
            && (v.slot.clientCert.Some? ==> r.slot.clientCert == v.slot.clientCert)
  {
  }

  // ----- the whole system

  /** A copy of a member that the cluster's worker holds, against what is stored now. */
  predicate Read(m: Member, stored: Member) {
    m.resourceVersion <= stored.resourceVersion && (m.resourceVersion == stored.resourceVersion ==> m == stored)
  }

  predicate NoneBroken(slots: seq<Slot>, k: nat) {
    forall j :: 0 <= j < k && j < |slots| ==> !slots[j].member.spec.broken
  }

  predicate CleanReads(slots: seq<Slot>, read: seq<Member>) {
    |read| <= |slots|
    && forall j :: 0 <= j < |read| ==>
         !Blocks(read[j]) && !Dirty(slots[j].member) && Read(read[j], slots[j].member)
  }

  predicate ClusterOk(slots: seq<Slot>, p: ClusterProc, size: int) {
    var n := Count(size);
    match p
    case ClusterIdle => true
    case StatusWrite(c) => true
    case EnsurePass(c, read) =>
      c.spec.size == size && |read| < n && |read| <= |slots|
      && (CountFailed(read) == 0 && CountCreating(read) == 0 ==> NoneBroken(slots, |read|))
    case RepairPass(c, _, read) =>
      c.spec.size == size && c.status.phase == ClusterMinorFailure
      && |slots| == n && |read| < n && CleanReads(slots, read)
    case BreakWrite(c, cutoff, read) =>
      c.spec.size == size && c.status.phase == ClusterMinorFailure
      && |slots| == n && |read| == n && CleanReads(slots, read)
      && Oldest(read, cutoff).Some? && CountFailed(read) * 2 <= size
    case UpdatePass(c, i) => c.spec.size == size && |slots| == n && i < n && NoneBroken(slots, n)
    case VersionWrite(c, i, m) =>
      c.spec.size == size && |slots| == n && i < n && NoneBroken(slots, n) && Read(m, slots[i].member)
    case RotationWrite(c, i, m) =>
      c.spec.size == size && |slots| == n && i < n && NoneBroken(slots, n) && Read(m, slots[i].member)
  }

  predicate SlotsOk(s: Sys) {
    |s.procs| == |s.w.slots|
    && forall i :: 0 <= i < |s.procs| ==> SlotOk(s.w.slots[i]) && ProcOk(s.w.slots[i], s.procs[i])
  }

  ghost predicate EtcdOk(s: Sys, n: nat)
    requires |s.procs| == |s.w.slots|
  {
    && ListOk(s.w.etcd, n)
    && (forall i :: 0 <= i < |s.procs| ==> ProcListOk(i, s.procs[i], s.w.etcd))
    && (forall k: nat :: k < n ==> HasPeer(s.w.etcd.entries, k) || (k < |s.w.slots| && s.w.slots[k].member.spec.broken))
  }

  predicate SingleDirty(slots: seq<Slot>) {
    forall a, b :: 0 <= a < b < |slots| ==> !Dirty(slots[a].member) || !Dirty(slots[b].member)
  }

  ghost predicate Inv(s: Sys, size: int) {
    && size % 2 == 1 && s.w.cluster.spec.size == size && s.w.now > ZERO_TIME
    && SlotsOk(s) && |s.w.slots| <= Count(size)
    && EtcdOk(s, Count(size))
    && SingleDirty(s.w.slots)
    && ClusterOk(s.w.slots, s.cluster, size)
  }

  /** What any member step may do to the stored members, as far as the cluster's worker cares. */
  predicate MembersMoved(a: seq<Slot>, b: seq<Slot>) {
    |a| == |b|
    && forall j :: 0 <= j < |a| ==>
         Read(a[j].member, b[j].member) && (Dirty(b[j].member) ==> Dirty(a[j].member))
         && (b[j].member.spec.broken ==> a[j].member.spec.broken)
  }

  lemma ClusterUnmoved(a: seq<Slot>, b: seq<Slot>, p: ClusterProc, size: int)
    requires ClusterOk(a, p, size) && MembersMoved(a, b)
    ensures ClusterOk(b, p, size)
  {
  }

  lemma MemberCallInv(s: Sys, i: nat, size: int)
    requires Inv(s, size) && i < |s.procs| && s.procs[i].Busy?
    ensures Inv(MemberCalled(s, i), size)
  {
    var n := Count(size);
    var p := s.procs[i];
    var v := View(p.mem, s.w.slots[i], s.w.etcd);
    var r := MemberCallAt(i, p.pc, v, s.w.now);
    var t := MemberCalled(s, i);
    MemberCallSlot(i, p.pc, v, s.w.now);
    MemberCallList(i, n, p.pc, v, s.w.now);
    ClusterUnmoved(s.w.slots, t.w.slots, s.cluster, size);
    forall j | 0 <= j < |t.procs|
      ensures ProcListOk(j, t.procs[j], t.w.etcd)
    {
      if j != i {
        OtherProcList(i, j, s.procs[j], s.w.etcd, r.etcd);
      }
    }
    forall k: nat | k < n
      ensures HasPeer(t.w.etcd.entries, k) || (k < |t.w.slots| && t.w.slots[k].member.spec.broken)
    {
      assert HasPeer(s.w.etcd.entries, k) || s.w.slots[k].member.spec.broken;
    }
  }

  lemma MemberHalfInv(s: Sys, i: nat, size: int)
    requires Inv(s, size) && InHalves(s, i)
    ensures Inv(MemberHalved(s, i), size)
  {
    var t := MemberHalved(s, i);
    HalfCallSlot(s.procs[i].pc, View(s.procs[i].mem, s.w.slots[i], s.w.etcd));
    assert forall j :: 0 <= j < |t.w.slots| ==> t.w.slots[j].member == s.w.slots[j].member;
    ClusterUnmoved(s.w.slots, t.w.slots, s.cluster, size);
  }

  lemma OtherProcList(i: nat, j: nat, p: MemberProc, a: Membership, b: Membership)
    requires i != j && ListStep(i, a, b) && ProcListOk(j, p, a)
    ensures ProcListOk(j, p, b)
  {
  }

  lemma MemberStepInv(s: Sys, step: Step, size: int)
    requires Inv(s, size)
    requires step.MemberStart? || step.MemberCall? || step.MemberHalf? || step.MemberFail? || step.MemberCrash?
    ensures Inv(Apply(s, step), size)
  {
    match step
    case MemberCall(i) =>
      if i < |s.procs| && s.procs[i].Busy? {
        MemberCallInv(s, i, size);
      }
    case MemberHalf(i) =>
      if InHalves(s, i) {
        MemberHalfInv(s, i, size);
      }
    case _ => ProcStepInv(s, step, size);
  }

  lemma ProcStepInv(s: Sys, step: Step, size: int)
    requires Inv(s, size) && (step.MemberStart? || step.MemberFail? || step.MemberCrash?)
    ensures Inv(Apply(s, step), size)
  {
  }

  lemma EnvSlotOk(s: Slot, p: MemberProc, e: EnvStep, now: Time)
    requires SlotOk(s) && ProcOk(s, p) && now > ZERO_TIME
    ensures SlotOk(EnvSlot(s, e, now)) && ProcOk(EnvSlot(s, e, now), p)
    ensures EnvSlot(s, e, now).member == s.member
  {
  }

  lemma PublishOk(m: Membership, n: nat, i: nat)
    requires ListOk(m, n)
    ensures ListOk(m.(entries := Publish(m.entries, i)), n)
    ensures forall p: nat :: HasPeer(m.entries, p) <==> HasPeer(Publish(m.entries, i), p)
  {
    var r := Publish(m.entries, i);
    assert forall k :: 0 <= k < |r| ==> r[k].peer == m.entries[k].peer && r[k].id == m.entries[k].id;
    forall p: nat
      ensures HasPeer(m.entries, p) <==> HasPeer(r, p)
    {
      if HasPeer(m.entries, p) {
        var k :| 0 <= k < |r| && m.entries[k].peer == p;
        assert r[k].peer == p;
      }
      if HasPeer(r, p) {
        var k :| 0 <= k < |r| && r[k].peer == p;
        assert m.entries[k].peer == p;
      }
    }
  }

  lemma EnvSlotInv(s: Sys, e: EnvStep, size: int)
    requires Inv(s, size) && !e.Tick? && !e.UserEdit? && !e.EtcdStarted? && e.i < |s.w.slots|
    ensures Inv(Apply(s, Environment(e)), size)
  {
    var t := Apply(s, Environment(e));
    EnvSlotOk(s.w.slots[e.i], s.procs[e.i], e, s.w.now);
    assert forall j :: 0 <= j < |t.w.slots| ==> t.w.slots[j].member == s.w.slots[j].member;
    ClusterUnmoved(s.w.slots, t.w.slots, s.cluster, size);
  }

  lemma EtcdStartedInv(s: Sys, i: nat, size: int)
    requires Inv(s, size)
    ensures Inv(Apply(s, Environment(EtcdStarted(i))), size)
  {
    var a, b := s.w.etcd, s.w.etcd.(entries := Publish(s.w.etcd.entries, i));
    PublishOk(a, Count(size), i);
    assert forall k :: 0 <= k < |b.entries| ==>
      b.entries[k].peer == a.entries[k].peer && b.entries[k].id == a.entries[k].id;
    forall j | 0 <= j < |s.procs|
      ensures ProcListOk(j, s.procs[j], b)
    {
      assert ProcListOk(j, s.procs[j], a);
    }
  }

  lemma EnvInv(s: Sys, e: EnvStep, size: int)
    requires Inv(s, size)
    ensures Inv(Apply(s, Environment(e)), size)
  {
    if e.EtcdStarted? {
      EtcdStartedInv(s, e.i, size);
    } else if !e.Tick? && !e.UserEdit? && e.i < |s.w.slots| {
      EnvSlotInv(s, e, size);
    }
  }

  // ----- a call of the cluster's worker

  lemma EnsuredInv(s: Sys, c: Cluster, i: nat, size: int)
    requires Inv(s, size) && c.spec.size == size && i <= |s.w.slots| && i < Count(size)
    ensures var t := Ensured(s, c, i);
            Inv(t.(cluster := ClusterIdle), size) && |t.w.slots| >= |s.w.slots|
            && (forall j :: 0 <= j < |s.w.slots| ==> t.w.slots[j] == s.w.slots[j])
            && (i == |s.w.slots| ==> t.w.slots[i].member.IsCreating())
  {
    var t := Ensured(s, c, i);
    forall j | 0 <= j < |t.w.slots|
      ensures t.w.slots[j] == if j < |s.w.slots| then s.w.slots[j] else NewSlot(GetMember(c, j))
    {
      EnsureSlotsAt(c, s.w.slots, i + 1, j);
    }
    if i == |s.w.slots| {
      assert !Dirty(t.w.slots[i].member) && SlotOk(t.w.slots[i]);
    }
  }

  lemma RepairNextOk(slots: seq<Slot>, c: Cluster, cutoff: Time, read: seq<Member>, size: int)
    requires c.spec.size == size && |read| <= Count(size) && |slots| == Count(size) && CleanReads(slots, read)
    requires c.status.phase == ClusterMinorFailure
    ensures ClusterOk(slots, RepairNext(c, cutoff, read), size)
  {
  }

  lemma AssessedOk(slots: seq<Slot>, c: Cluster, read: seq<Member>, now: Time, size: int)
    requires c.spec.size == size && |read| <= Count(size) && |read| <= |slots| <= Count(size) && size % 2 == 1
    requires CountFailed(read) == 0 && CountCreating(read) == 0 ==> NoneBroken(slots, |read|)
    ensures ClusterOk(slots, EnsureNext(c, read, now), size)
  {
    var assessed := Assess(c, read);
    if |read| == Count(size) {
      if assessed.status.phase == ClusterMinorFailure {
        RepairNextOk(slots, assessed, now - MINOR_FAILED_TIMEOUT, [], size);
      } else if assessed.ShouldUpdate() {
        assert NoneBroken(slots, Count(size));
      }
    }
  }

  lemma EnsurePassInv(s: Sys, size: int)
    requires Inv(s, size) && s.cluster.EnsurePass?
    ensures Inv(Apply(s, ClusterCall), size)
  {
    var c, read := s.cluster.c, s.cluster.read;
    var t := Ensured(s, c, |read|);
    EnsuredInv(s, c, |read|, size);
    var m := t.w.slots[|read|].member;
    Appended(read, m);
    if m.status.phase != Failed && !m.IsCreating() && CountFailed(read) == 0 && CountCreating(read) == 0 {
      assert SlotOk(t.w.slots[|read|]);
      assert NoneBroken(t.w.slots, |read| + 1);
    }
    AssessedOk(t.w.slots, c, read + [m], s.w.now, size);
  }

  lemma RepairPassInv(s: Sys, size: int)
    requires Inv(s, size) && s.cluster.RepairPass?
    ensures Inv(Apply(s, ClusterCall), size)
  {
    var c, cutoff, read := s.cluster.c, s.cluster.cutoff, s.cluster.read;
    PresentEnsured(s, c, |read|);
    var m := s.w.slots[|read|].member;
    if !Blocks(m) {
      RepairNextOk(s.w.slots, c, cutoff, read + [m], size);
    }
  }

  lemma UpdatePassInv(s: Sys, size: int)
    requires Inv(s, size) && s.cluster.UpdatePass?
    ensures Inv(Apply(s, ClusterCall), size)
  {
    PresentEnsured(s, s.cluster.c, s.cluster.i);
  }

  /** A write to the spec of an unbroken member, whatever its worker is doing. */
  lemma SpecWriteSlot(s: Slot, p: MemberProc, spec: MemberSpec)
    requires SlotOk(s) && ProcOk(s, p) && !s.member.spec.broken
    requires spec.broken ==> s.member.status.phase == Failed
    ensures var r := WithSpec(s, spec);
            SlotOk(r) && ProcOk(r, p) && r.member.status == s.member.status && r.member.spec == spec
            && s.member.resourceVersion <= r.member.resourceVersion
            && (s.member.resourceVersion == r.member.resourceVersion ==> s.member == r.member)
  {
  }

  lemma BreakWriteInv(s: Sys, size: int)
    requires Inv(s, size) && s.cluster.BreakWrite?
    ensures Inv(Apply(s, ClusterCall), size)
  {
    var cutoff, read := s.cluster.cutoff, s.cluster.read;
    OldestIsLongestFailed(read, cutoff);
    var k := Oldest(read, cutoff).value;
    var m := read[k];
    if Current(s.w.slots, k, m) {
      SpecWriteSlot(s.w.slots[k], s.procs[k], m.spec.(broken := true));
    }
  }

  /** Writes of an unmarked member's spec that do not mark it. */
  lemma WrittenInv(s: Sys, i: nat, spec: MemberSpec, next: ClusterProc, size: int)
    requires Inv(s, size) && i < |s.w.slots| && !s.w.slots[i].member.spec.broken && !spec.broken
    requires ClusterOk(s.w.slots, next, size) && (next.StatusWrite? || next.UpdatePass?)
    ensures Inv(s.(w := s.w.(slots := s.w.slots[i := WithSpec(s.w.slots[i], spec)]), cluster := next), size)
  {
  }

  lemma SpecWriteInv(s: Sys, size: int)
    requires Inv(s, size) && (s.cluster.VersionWrite? || s.cluster.RotationWrite?)
    ensures Inv(Apply(s, ClusterCall), size)
  {
    var c, i, m := s.cluster.c, s.cluster.i, s.cluster.m;
    if Current(s.w.slots, i, m) {
      if s.cluster.VersionWrite? {
        WrittenInv(s, i, m.spec.(version := c.spec.version), StatusWrite(c), size);
      } else {
        WrittenInv(s, i, m.spec.(certificateUpdate := m.status.certificateExpires), Rotated(c, i, m), size);
      }
    }
  }

  lemma ClusterStepInv(s: Sys, step: Step, size: int)
    requires Inv(s, size)
    requires step.ClusterStart? || step.ClusterCall? || step.ClusterFail? || step.ClusterCrash?
    ensures Inv(Apply(s, step), size)
  {
    if step.ClusterStart? {
      AssessedOk(s.w.slots, Opened(s.w.cluster), [], s.w.now, size);
    } else if step.ClusterCall? {
      match s.cluster
      case ClusterIdle =>
      case EnsurePass(_, _) => EnsurePassInv(s, size);
      case RepairPass(_, _, _) => RepairPassInv(s, size);
      case BreakWrite(_, _, _) => BreakWriteInv(s, size);
      case UpdatePass(_, _) => UpdatePassInv(s, size);
      case VersionWrite(_, _, _) => SpecWriteInv(s, size);
      case RotationWrite(_, _, _) => SpecWriteInv(s, size);
      case StatusWrite(_) =>
    }
  }

  // ----- every run

  lemma StartInv(w: World)
    requires Fresh(w)
    ensures Inv(Start(w), w.cluster.spec.size)
  {
    var n := Count(w.cluster.spec.size);
    var entries := w.etcd.entries;
    forall k: nat | k < n
      ensures HasPeer(entries, k)
    {
      assert entries[k].peer == k;
    }
  }

  lemma StepInv(s: Sys, step: Step, size: int)
    requires Inv(s, size)
    ensures Inv(Apply(s, step), size)
  {
    match step
    case Environment(e) => EnvInv(s, e, size);
    case ClusterStart(_) => ClusterStepInv(s, step, size);
    case ClusterCall => ClusterStepInv(s, step, size);
    case ClusterFail => ClusterStepInv(s, step, size);
    case ClusterCrash => ClusterStepInv(s, step, size);
    case _ => MemberStepInv(s, step, size);
  }

  lemma {:induction false} RunInv(s: Sys, steps: seq<Step>, size: int)
    requires Inv(s, size)
    ensures Inv(Run(s, steps), size)
  {
    if steps != [] {
      RunInv(s, steps[..|steps| - 1], size);
      StepInv(Run(s, steps[..|steps| - 1]), steps[|steps| - 1], size);
    }
  }
}
