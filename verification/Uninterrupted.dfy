/** A worker that nobody interrupts computes the uninterrupted reconcile. So a run of whole
    reconciles is one of the interleaved runs, and what holds of those holds of it. */

module Uninterrupted {
  import opened Api
  import opened Etcd
  import opened Objects
  import opened MemberController
  import opened ClusterController
  import opened Interleaving
  import opened AtomicRuns

  // ----- runs

  lemma {:induction false} RunAppend(s: Sys, a: seq<Step>, b: seq<Step>)
    ensures Run(s, a + b) == Run(Run(s, a), b)
  {
    hide Apply;
    if b == [] {
      assert a + b == a;
    } else {
      var last := |b| - 1;
      RunAppend(s, a, b[..last]);
      assert (a + b)[..|a| + last] == a + b[..last];
    }
  }

  lemma RunOne(s: Sys, step: Step)
    ensures Run(s, [step]) == Apply(s, step)
  {
  }

  /** No move of the environment. */
  predicate Calls(steps: seq<Step>) {
    forall k :: 0 <= k < |steps| ==> !steps[k].Environment?
  }

  // ----- one member

  function PcRank(pc: MemberPc): nat {
    match pc
    case RepairPod => 12 case RepairPvc => 11 case EtcdList => 10 case EtcdRemove(_) => 9 case EtcdAdd => 8
    case SetRecreating => 7 case UnsetBroken => 6 case Certificates => 5 case Expiry => 4 case Claim => 3
    case ReplacePod => 2 case CheckPod => 1 case FinalStatus => 0
  }

  function Pending(pc: MemberPc): nat {
    if pc.EtcdRemove? then |pc.ids| else 0
  }

  /** All calls that are left, one after the other. */
  function Rest(i: nat, pc: MemberPc, v: View, now: Time): (Slot, Membership)
    decreases PcRank(pc), Pending(pc)
  {
    var r := MemberCallAt(i, pc, v, now);
    if r.proc.Idle? then (r.slot, r.etcd) else Rest(i, r.proc.pc, View(r.proc.mem, r.slot, r.etcd), now)
  }

  function Final(v: View): (Slot, Membership) {
    var w := WriteStatus(v);
    (w.slot, w.etcd)
  }

  lemma RestFinal(i: nat, v: View, now: Time)
    ensures Rest(i, FinalStatus, v, now) == Final(v)
  {
  }

  lemma RestForward(i: nat, v: View, now: Time)
    ensures Rest(i, Certificates, v, now) == Final(Forward(v, now))
  {
    var certs := EnsureCertificates(v);
    RestFinal(i, certs.view, now);
    if !certs.stop {
      var checked := CheckCertificateExpires(certs.view);
      assert Rest(i, Expiry, certs.view, now) == Rest(i, Claim, checked, now);
      var pvc := EnsurePVC(checked);
      RestFinal(i, pvc.view, now);
      if !pvc.stop {
        assert pvc.view.mem == checked.mem;
        var update := UpdatePod(pvc.view);
        RestFinal(i, update.view, now);
        RestFinal(i, EnsurePod(update.view, now), now);
        RestFinal(i, EnsurePod(pvc.view, now), now);
        assert Rest(i, CheckPod, pvc.view, now) == Final(EnsurePod(pvc.view, now));
        assert Rest(i, CheckPod, update.view, now) == Final(EnsurePod(update.view, now));
      }
    }
  }

  lemma {:induction false} RestRemove(i: nat, ids: seq<nat>, v: View, now: Time)
    ensures var (entries, ok) := RemoveAll(v.etcd.entries, ids);
            Rest(i, RemoveNext(ids), v, now)
            == Rest(i, if ok then EtcdAdd else FinalStatus, v.(etcd := v.etcd.(entries := entries)), now)
    decreases |ids|
  {
    if ids != [] && HasId(v.etcd.entries, ids[0]) {
      RestRemove(i, ids[1..], v.(etcd := v.etcd.(entries := Without(v.etcd.entries, ids[0]))), now);
    } else {
      assert v.(etcd := v.etcd.(entries := v.etcd.entries)) == v;
    }
  }

  lemma RestAdd(i: nat, v: View, now: Time)
    ensures var add := AddPeer(i, v);
            Rest(i, EtcdAdd, v, now)
            == if add.stop then Final(add.view) else Rest(i, Certificates, ClearBroken(WriteRecreating(add.view)), now)
  {
  }

  lemma RestRepair(i: nat, v: View, now: Time)
    ensures var repair := Repair(i, v);
            Rest(i, RepairPod, v, now)
            == if repair.stop then Final(repair.view) else Rest(i, Certificates, repair.view, now)
  {
    var pod := DeletePod(v);
    RestFinal(i, pod.view, now);
    if !pod.stop {
      var pvc := DeletePVC(pod.view);
      RestFinal(i, pvc.view, now);
      if !pvc.stop {
        var ids := NamedIds(pvc.view.etcd.entries, i);
        assert Rest(i, EtcdList, pvc.view, now) == Rest(i, RemoveNext(ids), pvc.view, now);
        RestRemove(i, ids, pvc.view, now);
        var (entries, ok) := RemoveAll(pvc.view.etcd.entries, ids);
        var removed := pvc.view.(etcd := pvc.view.etcd.(entries := entries));
        RestFinal(i, removed, now);
        RestAdd(i, removed, now);
      }
    }
  }

  lemma RestIsReconcile(i: nat, slot: Slot, etcd: Membership, now: Time)
    ensures var v := View(slot.member, slot, etcd);
            Rest(i, MemberBegin(slot.member).pc, v, now) == Reconcile(i, slot, etcd, now)
  {
    var v := View(slot.member, slot, etcd);
    RestRepair(i, v, now);
    RestForward(i, v, now);
    RestForward(i, Repair(i, v).view, now);
  }

  lemma {:induction false} DriveMember(s: Sys, i: nat) returns (steps: seq<Step>)
    requires i < |s.w.slots| && i < |s.procs| && s.procs[i].Busy?
    ensures var (slot, etcd) := Rest(i, s.procs[i].pc, View(s.procs[i].mem, s.w.slots[i], s.w.etcd), s.w.now);
            Run(s, steps) == Sys(s.w.(slots := s.w.slots[i := slot], etcd := etcd), s.cluster, s.procs[i := Idle])
    ensures Calls(steps)
    decreases PcRank(s.procs[i].pc), Pending(s.procs[i].pc)
  {
    var p := s.procs[i];
    var r := MemberCallAt(i, p.pc, View(p.mem, s.w.slots[i], s.w.etcd), s.w.now);
    var t := MemberCalled(s, i);
    RunOne(s, MemberCall(i));
    steps := [MemberCall(i)];
    if r.proc.Busy? {
      var rest := DriveMember(t, i);
      RunAppend(s, steps, rest);
      steps := steps + rest;
      assert t.w.slots[i] == r.slot && t.procs[i] == r.proc;
      var (slot, etcd) := Rest(i, r.proc.pc, View(r.proc.mem, r.slot, r.etcd), s.w.now);
      assert s.w.slots[i := r.slot][i := slot] == s.w.slots[i := slot];
      assert s.procs[i := r.proc][i := Idle] == s.procs[i := Idle];
    }
  }

  /** A whole member reconcile is the run of its own calls. */
  lemma MemberAlone(s: Sys, i: nat) returns (steps: seq<Step>)
    requires i < |s.w.slots| && i < |s.procs| && s.procs[i].Idle?
    ensures Run(s, steps) == s.(w := ReconcileMember(s.w, i))
    ensures Calls(steps)
  {
    var t := Apply(s, MemberStart(i));
    RunOne(s, MemberStart(i));
    var rest := DriveMember(t, i);
    steps := [MemberStart(i)] + rest;
    RunAppend(s, [MemberStart(i)], rest);
    RestIsReconcile(i, s.w.slots[i], s.w.etcd, s.w.now);
    assert t.procs[i := Idle] == s.procs;
  }

  // ----- the cluster

  function Idles(n: nat): seq<MemberProc> {
    seq(n, k => Idle)
  }

  /** The reconcile is over: c was its working copy, slots are the members it left. */
  function Settled(s: Sys, c: Cluster, slots: seq<Slot>): Sys {
    Sys(s.w.(cluster := PutClusterStatus(s.w.cluster, c), slots := slots), ClusterIdle,
        s.procs + Idles(if |slots| < |s.w.slots| then 0 else |slots| - |s.w.slots|))
  }

  lemma DriveStatus(s: Sys, c: Cluster) returns (steps: seq<Step>)
    requires s.cluster == StatusWrite(c)
    ensures Run(s, steps) == Settled(s, c, s.w.slots)
    ensures Calls(steps)
  {
    steps := [ClusterCall];
    RunOne(s, ClusterCall);
    assert s.procs + Idles(0) == s.procs;
  }

  function AfterUpdate(r: Rollout): Cluster {
    if r.stop then r.cluster else WithVersion(r.cluster)
  }

  lemma DriveRotation(s: Sys, c: Cluster, i: nat, m: Member) returns (steps: seq<Step>)
    requires i < Count(c.spec.size) <= |s.w.slots| && s.cluster == RotationWrite(c, i, m) && m == s.w.slots[i].member
    requires c.spec.version == m.spec.version
    ensures var slots := s.w.slots[i := Rotate(s.w.slots[i])];
            var r := if m.status.certificateExpires then Rollout(WithClusterPhase(c, ClusterUpdating), slots, true)
                     else if c.spec.version != m.status.version then Rollout(c, slots, true)
                     else UpdateFrom(c, slots, i + 1);
            Run(s, steps) == Settled(s, AfterUpdate(r), r.slots)
    ensures Calls(steps)
    decreases Count(c.spec.size) - i, 0
  {
    var t := ClusterCalled(s);
    RunOne(s, ClusterCall);
    var rest: seq<Step>;
    if m.status.certificateExpires {
      rest := DriveStatus(t, WithClusterPhase(c, ClusterUpdating));
    } else if c.spec.version != m.status.version {
      rest := DriveStatus(t, c);
    } else {
      rest := DriveUpdate(t, c, i + 1);
    }
    steps := [ClusterCall] + rest;
    RunAppend(s, [ClusterCall], rest);
  }

  lemma DriveVersion(s: Sys, c: Cluster, i: nat, m: Member) returns (steps: seq<Step>)
    requires i < |s.w.slots| && s.cluster == VersionWrite(c, i, m) && m == s.w.slots[i].member
    ensures Run(s, steps) == Settled(s, c, s.w.slots[i := BumpVersion(s.w.slots[i], c.spec.version)])
    ensures Calls(steps)
  {
    var t := ClusterCalled(s);
    RunOne(s, ClusterCall);
    var rest := DriveStatus(t, c);
    steps := [ClusterCall] + rest;
    RunAppend(s, [ClusterCall], rest);
  }

  lemma DriveRead(s: Sys, c: Cluster, i: nat) returns (steps: seq<Step>)
    requires i < Count(c.spec.size) <= |s.w.slots| && s.cluster == UpdateRead(c, i, s.w.slots[i].member)
    ensures var r := UpdateFrom(c, s.w.slots, i);
            Run(s, steps) == Settled(s, AfterUpdate(r), r.slots)
    ensures Calls(steps)
    decreases Count(c.spec.size) - i, 1
  {
    var m := s.w.slots[i].member;
    if m.IsCreating() || m.status.phase == Updating {
      steps := DriveStatus(s, c);
    } else if c.spec.version != m.spec.version {
      steps := DriveVersion(s, WithClusterPhase(c, ClusterUpdating), i, m);
    } else if c.status.certificateExpires || m.spec.certificateUpdate {
      steps := DriveRotation(s, c, i, m);
    } else if c.spec.version != m.status.version {
      steps := DriveStatus(s, c);
    } else {
      steps := DriveUpdate(s, c, i + 1);
    }
  }

  lemma {:induction false} DriveUpdate(s: Sys, c: Cluster, i: nat) returns (steps: seq<Step>)
    requires Count(c.spec.size) <= |s.w.slots| && s.cluster == UpdateNext(c, i)
    ensures var r := UpdateFrom(c, s.w.slots, i);
            Run(s, steps) == Settled(s, AfterUpdate(r), r.slots)
    ensures Calls(steps)
    decreases Count(c.spec.size) - i, 2
  {
    if i >= Count(c.spec.size) {
      steps := DriveStatus(s, s.cluster.c);
    } else {
      PresentEnsured(s, c, i);
      RunOne(s, ClusterCall);
      var rest := DriveRead(s.(cluster := UpdateRead(c, i, s.w.slots[i].member)), c, i);
      steps := [ClusterCall] + rest;
      RunAppend(s, [ClusterCall], rest);
    }
  }

  lemma DriveAfterRepair(s: Sys, c: Cluster) returns (steps: seq<Step>)
    requires Count(c.spec.size) <= |s.w.slots| && s.cluster == AfterRepair(c)
    ensures var r := UpdateFrom(c, s.w.slots, 0);
            Run(s, steps) == if c.ShouldUpdate() then Settled(s, AfterUpdate(r), r.slots)
                             else Settled(s, WithVersion(c), s.w.slots)
    ensures Calls(steps)
  {
    if c.ShouldUpdate() {
      steps := DriveUpdate(s, c, 0);
    } else {
      steps := DriveStatus(s, WithVersion(c));
    }
  }

  lemma DriveBreak(s: Sys, c: Cluster, cutoff: Time, read: seq<Member>) returns (steps: seq<Step>)
    requires Count(c.spec.size) <= |s.w.slots| && c.status.phase == ClusterMinorFailure
    requires s.cluster == BreakWrite(c, cutoff, read) && Oldest(read, cutoff).Some?
    requires |read| <= |s.w.slots| && read == Members(s.w.slots[..|read|])
    ensures var k := Oldest(read, cutoff).value;
            Run(s, steps) == Settled(s, WithVersion(c), s.w.slots[k := MarkBroken(s.w.slots[k])])
    ensures Calls(steps)
  {
    var k := Oldest(read, cutoff).value;
    assert read[k] == s.w.slots[k].member;
    var t := ClusterCalled(s);
    RunOne(s, ClusterCall);
    var rest := DriveStatus(t, WithVersion(c));
    steps := [ClusterCall] + rest;
    RunAppend(s, [ClusterCall], rest);
  }

  lemma ChoiceOf(slots: seq<Slot>, size: int, read: seq<Member>, now: Time)
    requires |read| == Count(size) <= |slots| && read == Members(slots[..|read|])
    requires forall k :: 0 <= k < |read| ==> !Blocks(read[k])
    ensures var best := Oldest(read, now - MINOR_FAILED_TIMEOUT);
            RepairMembers(slots, size, now)
            == if best.None? then (slots, true)
               else if CountFailed(read) * 2 > size then (slots, false)
               else (slots[best.value := MarkBroken(slots[best.value])], false)
  {
  }

  lemma DriveChoice(s: Sys, c: Cluster, read: seq<Member>) returns (steps: seq<Step>)
    requires |read| == Count(c.spec.size) <= |s.w.slots| && c.status.phase == ClusterMinorFailure
    requires read == Members(s.w.slots[..|read|]) && forall k :: 0 <= k < |read| ==> !Blocks(read[k])
    requires s.cluster == RepairNext(c, s.w.now - MINOR_FAILED_TIMEOUT, read)
    ensures var (slots, waiting) := RepairMembers(s.w.slots, c.spec.size, s.w.now);
            Run(s, steps) == Settled(s, if waiting then c else WithVersion(c), slots)
    ensures Calls(steps)
  {
    ChoiceOf(s.w.slots, c.spec.size, read, s.w.now);
    if Oldest(read, s.w.now - MINOR_FAILED_TIMEOUT).None? {
      steps := DriveStatus(s, c);
    } else if CountFailed(read) * 2 > c.spec.size {
      steps := DriveStatus(s, WithVersion(c));
    } else {
      steps := DriveBreak(s, c, s.w.now - MINOR_FAILED_TIMEOUT, read);
    }
  }

  lemma {:induction false} DriveRepair(s: Sys, c: Cluster, read: seq<Member>) returns (steps: seq<Step>)
    requires Count(c.spec.size) <= |s.w.slots| && c.status.phase == ClusterMinorFailure
    requires |read| <= Count(c.spec.size) && read == Members(s.w.slots[..|read|])
    requires forall k :: 0 <= k < |read| ==> !Blocks(read[k])
    requires s.cluster == RepairNext(c, s.w.now - MINOR_FAILED_TIMEOUT, read)
    ensures var (slots, waiting) := RepairMembers(s.w.slots, c.spec.size, s.w.now);
            Run(s, steps) == Settled(s, if waiting then c else WithVersion(c), slots)
    ensures Calls(steps)
    decreases Count(c.spec.size) - |read|
  {
    if |read| == Count(c.spec.size) {
      steps := DriveChoice(s, c, read);
    } else {
      PresentEnsured(s, c, |read|);
      var m := s.w.slots[|read|].member;
      PrefixMembers(s.w.slots, |read|);
      RunOne(s, ClusterCall);
      var t := ClusterCalled(s);
      var rest: seq<Step>;
      if Blocks(m) {
        assert Blocks(Members(s.w.slots[..Count(c.spec.size)])[|read|]);
        rest := DriveStatus(t, c);
      } else {
        rest := DriveRepair(t, c, read + [m]);
      }
      steps := [ClusterCall] + rest;
      RunAppend(s, [ClusterCall], rest);
    }
  }

  lemma EnsureTwice(c: Cluster, slots: seq<Slot>, i: nat, n: nat)
    requires i <= n
    ensures EnsureSlots(c, EnsureSlots(c, slots, i), n) == EnsureSlots(c, slots, n)
  {
    var once := EnsureSlots(c, slots, i);
    var a, b := EnsureSlots(c, once, n), EnsureSlots(c, slots, n);
    assert |a| == |b|;
    forall k | 0 <= k < |a|
      ensures a[k] == b[k]
    {
      EnsureSlotsAt(c, once, n, k);
      EnsureSlotsAt(c, slots, n, k);
      if k < |once| {
        EnsureSlotsAt(c, slots, i, k);
      }
    }
  }

  lemma DriveAssessed(s: Sys, c: Cluster, read: seq<Member>) returns (steps: seq<Step>)
    requires |read| == Count(c.spec.size) <= |s.w.slots| && read == Members(s.w.slots[..|read|])
    requires s.cluster == EnsureNext(c, read, s.w.now)
    ensures var (d, slots) := ClusterStages(c, s.w.slots, s.w.now);
            Run(s, steps) == Settled(s, d, slots)
    ensures Calls(steps)
  {
    forall k | 0 <= k < |s.w.slots|
      ensures EnsureSlots(c, s.w.slots, |read|)[k] == s.w.slots[k]
    {
      EnsureSlotsAt(c, s.w.slots, |read|, k);
    }
    assert EnsureSlots(c, s.w.slots, |read|) == s.w.slots;
    var assessed := Assess(c, read);
    if assessed.status.phase == ClusterMinorFailure {
      steps := DriveRepair(s, assessed, []);
    } else {
      steps := DriveAfterRepair(s, assessed);
    }
  }

  lemma EnsuredStages(s: Sys, t: Sys, c: Cluster, i: nat)
    requires i <= |s.w.slots| && i < Count(c.spec.size)
    requires t.w == Ensured(s, c, i).w && t.procs == Ensured(s, c, i).procs
    ensures var (d, slots) := ClusterStages(c, t.w.slots, s.w.now);
            ClusterStages(c, s.w.slots, s.w.now) == (d, slots) && Settled(t, d, slots) == Settled(s, d, slots)
  {
    EnsureTwice(c, s.w.slots, i + 1, Count(c.spec.size));
    StagesAgree(c, s.w.slots, t.w.slots, s.w.now);
    SettledLater(s, t, c);
  }

  lemma {:induction false} DriveEnsure(s: Sys, c: Cluster, read: seq<Member>) returns (steps: seq<Step>)
    requires |read| <= |s.w.slots| && |read| <= Count(c.spec.size) && read == Members(s.w.slots[..|read|])
    requires s.cluster == EnsureNext(c, read, s.w.now)
    ensures var (d, slots) := ClusterStages(c, s.w.slots, s.w.now);
            Run(s, steps) == Settled(s, d, slots)
    ensures Calls(steps)
    decreases Count(c.spec.size) - |read|
  {
    if |read| == Count(c.spec.size) {
      steps := DriveAssessed(s, c, read);
    } else {
      var t := ClusterCalled(s);
      RunOne(s, ClusterCall);
      var m := EnsuredPrefix(s, c, |read|);
      var rest := DriveEnsure(t, c, read + [m]);
      steps := [ClusterCall] + rest;
      RunAppend(s, [ClusterCall], rest);
      EnsuredStages(s, t, c, |read|);
    }
  }

  lemma EnsuredPrefix(s: Sys, c: Cluster, i: nat) returns (m: Member)
    requires i <= |s.w.slots|
    ensures var slots := Ensured(s, c, i).w.slots;
            m == slots[i].member && Members(slots[..i + 1]) == Members(s.w.slots[..i]) + [m]
  {
    var slots := Ensured(s, c, i).w.slots;
    forall k | 0 <= k < i
      ensures slots[k] == s.w.slots[k]
    {
      EnsureSlotsAt(c, s.w.slots, i + 1, k);
    }
    assert slots[..i] == s.w.slots[..i];
    PrefixMembers(slots, i);
    m := slots[i].member;
  }

  lemma StagesAgree(c: Cluster, a: seq<Slot>, b: seq<Slot>, now: Time)
    requires EnsureSlots(c, a, Count(c.spec.size)) == EnsureSlots(c, b, Count(c.spec.size))
    ensures ClusterStages(c, a, now) == ClusterStages(c, b, now)
  {
  }

  lemma SettledLater(s: Sys, t: Sys, c: Cluster)
    requires |s.w.slots| <= |t.w.slots| && t.w == s.w.(slots := t.w.slots)
    requires t.procs == s.procs + Idles(|t.w.slots| - |s.w.slots|)
    ensures var (d, slots) := ClusterStages(c, t.w.slots, s.w.now);
            Settled(t, d, slots) == Settled(s, d, slots)
  {
  }

  /** A whole cluster reconcile is the run of its own calls. */
  lemma ClusterAlone(s: Sys, prepared: bool) returns (steps: seq<Step>)
    requires s.cluster.ClusterIdle?
    ensures var w := ReconcileCluster(s.w, prepared);
            |w.slots| >= |s.w.slots|
            && Run(s, steps) == Sys(w, ClusterIdle, s.procs + Idles(|w.slots| - |s.w.slots|))
    ensures Calls(steps)
  {
    var t := Apply(s, ClusterStart(prepared));
    RunOne(s, ClusterStart(prepared));
    var rest: seq<Step>;
    if prepared {
      rest := DriveEnsure(t, Opened(s.w.cluster), []);
    } else {
      rest := DriveStatus(t, Opened(s.w.cluster));
    }
    steps := [ClusterStart(prepared)] + rest;
    RunAppend(s, [ClusterStart(prepared)], rest);
  }

  // ----- whole runs

  lemma ActAlone(u: World, act: Act) returns (steps: seq<Step>)
    ensures Run(Start(u), steps) == Start(ApplyAct(u, act))
    ensures if act.EnvAct? then steps == [Environment(act.e)] else Calls(steps)
  {
    var s := Start(u);
    match act {
      case ClusterAct(prepared) =>
        steps := ClusterAlone(s, prepared);
      case MemberAct(i) =>
        steps := [];
        if i < |u.slots| {
          steps := MemberAlone(s, i);
        }
      case EnvAct(e) =>
        RunOne(s, Environment(e));
        steps := [Environment(e)];
    }
    assert Run(s, steps).procs == Start(ApplyAct(u, act)).procs;
  }

  /** Every run of whole reconciles is a run of single calls, with the same moves of the environment, that ends
      in the same stored state. */
  lemma {:induction false} AtomicIsInterleaved(w: World, acts: seq<Act>) returns (steps: seq<Step>)
    ensures Run(Start(w), steps) == Start(RunActs(w, acts))
    ensures forall k :: 0 <= k < |steps| && steps[k].Environment? ==> EnvAct(steps[k].e) in acts
  {
    if acts == [] {
      steps := [];
    } else {
      var before, act := acts[..|acts| - 1], acts[|acts| - 1];
      var first := AtomicIsInterleaved(w, before);
      var rest := ActAlone(RunActs(w, before), act);
      RunAppend(Start(w), first, rest);
      steps := first + rest;
      assert acts == before + [act];
    }
  }
}
