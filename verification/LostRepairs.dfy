/** When a repair can come to its end, and what becomes of one that is lost between the add and the write that
    clears the mark. */

module LostRepairs {
  import opened Wrappers
  import opened Api
  import opened Etcd
  import opened Objects
  import opened MemberController
  import opened Interleaving
  import opened Invariant
  import opened Repairs
  import opened Uninterrupted
  import opened Limits

  /** The marked member has no pod that could give etcd's entry for its URL a name. */
  predicate AddedOnly(s: Sys, i: nat) {
    i < |s.w.slots| && s.w.slots[i].member.spec.broken && s.w.slots[i].pod.None? && Nameless(s.w.etcd.entries, i)
  }

  /** How far a retry gets. */
  predicate Retries(p: MemberProc) {
    p.Busy? ==>
      p.pc.RepairPod? || p.pc.RepairPvc? || p.pc.EtcdList? || p.pc.EtcdAdd? || (p.pc.FinalStatus? && p.mem.spec.broken)
  }

  ghost predicate LostInv(s: Sys, i: nat, size: int) {
    Inv(s, size) && AddedOnly(s, i) && Retries(s.procs[i])
  }

  lemma OwnCall(s: Sys, i: nat, size: int)
    requires LostInv(s, i, size) && s.procs[i].Busy?
    ensures AddedOnly(MemberCalled(s, i), i) && Retries(MemberCalled(s, i).procs[i])
  {
    NamelessListed(s.w.etcd, Count(size), i);
    assert SlotOk(s.w.slots[i]) && ProcOk(s.w.slots[i], s.procs[i]);
  }

  lemma WithoutKeeps(entries: seq<Entry>, id: nat, i: nat)
    requires Nameless(entries, i) && forall k :: 0 <= k < |entries| && entries[k].id == id ==> entries[k].peer != i
    ensures Nameless(Without(entries, id), i)
  {
    var k :| 0 <= k < |entries| && entries[k].peer == i && entries[k].name.None?;
    assert entries[k] in Without(entries, id);
  }

  /** Another member's call. */
  lemma OtherList(j: nat, i: nat, pc: MemberPc, v: View, now: Time)
    requires i != j && Nameless(v.etcd.entries, i) && ProcListOk(j, Busy(pc, v.mem), v.etcd)
    ensures Nameless(MemberCallAt(j, pc, v, now).etcd.entries, i)
  {
    var k :| 0 <= k < |v.etcd.entries| && v.etcd.entries[k].peer == i && v.etcd.entries[k].name.None?;
    if pc.EtcdRemove? {
      if pc.ids != [] && HasId(v.etcd.entries, pc.ids[0]) {
        assert pc.ids[0] in pc.ids;
        WithoutKeeps(v.etcd.entries, pc.ids[0], i);
      }
    } else if pc.EtcdAdd? {
      assert Add(v.etcd, j).entries[k] == v.etcd.entries[k];
    } else {
      assert MemberCallAt(j, pc, v, now).etcd == v.etcd;
    }
  }

  lemma PublishKeeps(entries: seq<Entry>, j: nat, i: nat)
    requires i != j && Nameless(entries, i)
    ensures Nameless(Publish(entries, j), i)
  {
    var k :| 0 <= k < |entries| && entries[k].peer == i && entries[k].name.None?;
    assert Publish(entries, j)[k] == entries[k];
  }

  lemma MemberCallLost(s: Sys, j: nat, i: nat, size: int)
    requires LostInv(s, i, size) && j < |s.procs| && s.procs[j].Busy?
    ensures AddedOnly(MemberCalled(s, j), i) && Retries(MemberCalled(s, j).procs[i])
  {
    if j == i {
      OwnCall(s, i, size);
    } else {
      assert ProcListOk(j, s.procs[j], s.w.etcd);
      OtherList(j, i, s.procs[j].pc, View(s.procs[j].mem, s.w.slots[j], s.w.etcd), s.w.now);
    }
  }

  lemma EnvLost(s: Sys, e: EnvStep, i: nat, size: int)
    requires LostInv(s, i, size)
    ensures AddedOnly(Apply(s, Environment(e)), i)
  {
    if e.EtcdStarted? && e.i != i {
      PublishKeeps(s.w.etcd.entries, e.i, i);
    }
  }

  lemma ClusterCallLost(s: Sys, i: nat, size: int)
    requires LostInv(s, i, size)
    ensures AddedOnly(ClusterCalled(s), i) && |ClusterCalled(s).procs| > i && ClusterCalled(s).procs[i] == s.procs[i]
  {
    ClusterKeepsObjects(s, size, i);
    ClusterKeepsBroken(s, size, i);
  }

  lemma StepLost(s: Sys, step: Step, i: nat, size: int)
    requires LostInv(s, i, size)
    ensures LostInv(Apply(s, step), i, size)
  {
    StepInv(s, step, size);
    StaysLost(s, step, i, size);
  }

  lemma StaysLost(s: Sys, step: Step, i: nat, size: int)
    requires LostInv(s, i, size)
    ensures var t := Apply(s, step);
            AddedOnly(t, i) && |t.procs| > i && Retries(t.procs[i])
  {
    match step
    case MemberCall(j) =>
      if j < |s.procs| && s.procs[j].Busy? {
        MemberCallLost(s, j, i, size);
      }
    case ClusterCall => ClusterCallLost(s, i, size);
    case Environment(e) => EnvLost(s, e, i, size);
    case _ =>
      assert SlotOk(s.w.slots[i]) && ProcOk(s.w.slots[i], s.procs[i]);
  }

  /** A marked member without a pod whose URL is listed without a name never gets rid of the mark, in no
      interleaved run whatever: it stays without a pod, its URL stays listed without a name, and no other
      member is ever marked. A repair that is lost right after the add leaves it so. */
  lemma {:induction false} NeverFinished(s: Sys, steps: seq<Step>, i: nat, size: int)
    requires Inv(s, size) && AddedOnly(s, i) && s.procs[i].Idle?
    ensures LostInv(Run(s, steps), i, size)
    ensures var slots := Run(s, steps).w.slots;
            forall k :: 0 <= k < |slots| && k != i ==> !slots[k].member.spec.broken
  {
    if steps != [] {
      NeverFinished(s, steps[..|steps| - 1], i, size);
      StepLost(Run(s, steps[..|steps| - 1]), steps[|steps| - 1], i, size);
    }
    var slots := Run(s, steps).w.slots;
    assert Dirty(slots[i].member);
  }

  // ----- the way to the end of a repair from everywhere else

  /** Member i is marked and its worker idle. */
  predicate Marked(s: Sys, i: nat) {
    i < |s.w.slots| && i < |s.procs| && s.w.slots[i].member.spec.broken && s.procs[i].Idle?
  }

  /** The mark of member i is gone at the end of the run. */
  predicate Clears(s: Sys, steps: seq<Step>, i: nat) {
    var slots := Run(s, steps).w.slots;
    i < |slots| && !slots[i].member.spec.broken
  }

  lemma PublishNames(entries: seq<Entry>, i: nat)
    ensures !Nameless(Publish(entries, i), i)
  {
  }

  /** From now on the entry has a name, if a pod is there to give it one, and the pod is gone. */
  lemma NamedAndGone(s: Sys, i: nat, size: int) returns (steps: seq<Step>)
    requires Inv(s, size) && Marked(s, i) && (s.w.slots[i].pod.Some? || !Nameless(s.w.etcd.entries, i))
    ensures var t := Run(s, steps);
            Inv(t, size) && Marked(t, i) && t.w.slots[i].pod.None? && !Nameless(t.w.etcd.entries, i)
  {
    var named := s;
    steps := [];
    if s.w.slots[i].pod.Some? {
      PublishNames(s.w.etcd.entries, i);
      RunOne(s, Environment(EtcdStarted(i)));
      steps := [Environment(EtcdStarted(i))];
      named := Apply(s, Environment(EtcdStarted(i)));
    }
    RunOne(named, Environment(PodGone(i)));
    RunAppend(s, steps, [Environment(PodGone(i))]);
    steps := steps + [Environment(PodGone(i))];
    RunInv(s, steps, size);
  }

  lemma DeletesVolume(i: nat, slot: Slot, etcd: Membership, now: Time)
    requires slot.member.spec.broken && slot.pod.None? && slot.pvc.Some?
    ensures Reconcile(i, slot, etcd, now) == (slot.(pvc := Some(slot.pvc.value.(terminating := true))), etcd)
  {
  }

  /** A reconcile asks for the deletion of the volume, and it goes. */
  lemma VolumeDeleted(s: Sys, i: nat) returns (steps: seq<Step>)
    requires Marked(s, i) && s.w.slots[i].pod.None? && s.w.slots[i].pvc.Some?
    ensures Run(s, steps) == s.(w := s.w.(slots := s.w.slots[i := s.w.slots[i].(pvc := None)]))
  {
    DeletesVolume(i, s.w.slots[i], s.w.etcd, s.w.now);
    var going := s.w.slots[i].(pvc := Some(s.w.slots[i].pvc.value.(terminating := true)));
    var t := s.(w := s.w.(slots := s.w.slots[i := going]));
    var alone := MemberAlone(s, i);
    RunOne(t, Environment(PvcGone(i)));
    RunAppend(s, alone, [Environment(PvcGone(i))]);
    steps := alone + [Environment(PvcGone(i))];
    assert s.w.slots[i := going][i := going.(pvc := None)] == s.w.slots[i := s.w.slots[i].(pvc := None)];
  }

  lemma VolumeGone(s: Sys, i: nat, size: int) returns (steps: seq<Step>)
    requires Inv(s, size) && Marked(s, i) && s.w.slots[i].pod.None? && !Nameless(s.w.etcd.entries, i)
    ensures var t := Run(s, steps);
            Inv(t, size) && Marked(t, i) && t.w.slots[i].pod.None? && t.w.slots[i].pvc.None?
            && !Nameless(t.w.etcd.entries, i)
  {
    steps := [];
    if s.w.slots[i].pvc.Some? {
      steps := VolumeDeleted(s, i);
    }
    RunInv(s, steps, size);
  }

  lemma LastReconcile(s: Sys, i: nat, size: int) returns (steps: seq<Step>)
    requires Inv(s, size) && Marked(s, i) && s.w.slots[i].pod.None? && s.w.slots[i].pvc.None?
    requires !Nameless(s.w.etcd.entries, i)
    ensures Clears(s, steps, i)
  {
    RepairCompletes(i, s.w.slots[i], s.w.etcd, Count(size), s.w.now);
    steps := MemberAlone(s, i);
  }

  lemma Finishing(s: Sys, i: nat, size: int) returns (steps: seq<Step>)
    requires Inv(s, size) && Marked(s, i) && (s.w.slots[i].pod.Some? || !Nameless(s.w.etcd.entries, i))
    ensures Clears(s, steps, i)
  {
    var a := NamedAndGone(s, i, size);
    var b := VolumeGone(Run(s, a), i, size);
    var c := LastReconcile(Run(Run(s, a), b), i, size);
    RunAppend(s, a, b);
    RunAppend(s, a + b, c);
    steps := a + b + c;
  }

  /** A marked member whose worker is idle can get rid of the mark in some interleaved run if and only if it has a
      pod, or etcd does not list its URL without a name. */
  lemma RepairCanFinish(s: Sys, i: nat, size: int)
    requires Inv(s, size) && Marked(s, i)
    ensures (exists steps :: Clears(s, steps, i))
            <==> s.w.slots[i].pod.Some? || !Nameless(s.w.etcd.entries, i)
  {
    if s.w.slots[i].pod.Some? || !Nameless(s.w.etcd.entries, i) {
      var steps := Finishing(s, i, size);
    } else {
      forall steps
        ensures !Clears(s, steps, i)
      {
        NeverFinished(s, steps, i, size);
      }
    }
  }
}
