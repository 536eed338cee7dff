/** The member controller: one function for each stage of a reconcile, the reconcile as their
    composition, and the controller itself as a class proved to compute just that. */

module MemberController {
  import opened Wrappers
  import opened Api
  import opened Etcd
  import opened Objects

  /** What a reconcile of one member can see and change: its working copy, the stored objects
      under the member's name, and etcd's membership list. */
  datatype View = View(mem: Member, slot: Slot, etcd: Membership)

  /** stop: the stage returned an error or asked for a requeue, and the reconcile ends here. */
  datatype Reply = Reply(view: View, stop: bool)

  // ----- writes of the working copy; a write that succeeds reloads it

  function WriteStatus(v: View): View {
    if v.mem.resourceVersion != v.slot.member.resourceVersion then v else
      var stored := PutStatus(v.slot.member, v.mem.status);
      v.(mem := stored, slot := v.slot.(member := stored))
  }

  function WriteSpec(v: View): View {
    if v.mem.resourceVersion != v.slot.member.resourceVersion then v else
      var stored := PutSpec(v.slot.member, v.mem.spec);
      v.(mem := stored, slot := v.slot.(member := stored))
  }

  function WithPhase(m: Member, phase: MemberPhase): Member {
    m.(status := m.status.(phase := phase))
  }

  // ----- stages

  function DeletePod(v: View): Reply {
    if v.slot.pod.None? then Reply(v, false)
    else Reply(v.(slot := v.slot.(pod := Some(v.slot.pod.value.(terminating := true)))), true)
  }

  function DeletePVC(v: View): Reply {
    if v.slot.pvc.None? then Reply(v, false)
    else Reply(v.(slot := v.slot.(pvc := Some(v.slot.pvc.value.(terminating := true)))), true)
  }

  function AddPeer(i: nat, v: View): Reply {
    if HasPeer(v.etcd.entries, i) then Reply(v, true) else Reply(v.(etcd := Add(v.etcd, i)), false)
  }

  function ReaddToCluster(i: nat, v: View): Reply {
    var (entries, ok) := RemoveAll(v.etcd.entries, NamedIds(v.etcd.entries, i));
    var removed := v.(etcd := v.etcd.(entries := entries));
    if ok then AddPeer(i, removed) else Reply(removed, true)
  }

  function WriteRecreating(v: View): View {
    WriteStatus(v.(mem := v.mem.(status := v.mem.status.(phase := Recreating, failedTime := ZERO_TIME))))
  }

  function ClearBroken(v: View): View {
    WriteSpec(v.(mem := v.mem.(spec := v.mem.spec.(broken := false))))
  }

  function Repair(i: nat, v: View): Reply {
    var pod := DeletePod(v);
    if pod.stop then pod else
      var pvc := DeletePVC(pod.view);
      if pvc.stop then pvc else
        var readd := ReaddToCluster(i, pvc.view);
        if readd.stop then readd else Reply(ClearBroken(WriteRecreating(readd.view)), false)
  }

  function EnsureCertificates(v: View): Reply {
    var client := if v.slot.clientCert.None? then ZERO_TIME else v.slot.clientCert.value;
    var peer := if v.slot.peerCert.None? then ZERO_TIME else v.slot.peerCert.value;
    Reply(v.(slot := v.slot.(clientCert := Some(client), peerCert := Some(peer))),
          client == ZERO_TIME || peer == ZERO_TIME)
  }

  function WithExpiry(m: Member, expires: bool): Member {
    m.(status := m.status.(certificateExpires := expires))
  }

  /** The check when that many certificate reads succeed and the next one fails with an error. The flag of
      the certificate looked at last wins, also when the read after it fails. */
  function CheckReads(v: View, answered: nat): Reply {
    if v.slot.pod.None? then Reply(v, false)
    else if answered == 0 then Reply(v, true)
    else if v.slot.clientCert.None? then Reply(v, false)
    else
      var created := v.slot.pod.value.created;
      if answered == 1 then Reply(v.(mem := WithExpiry(v.mem, v.slot.clientCert.value > created)), true)
      else if v.slot.peerCert.None? then Reply(v.(mem := WithExpiry(v.mem, v.slot.clientCert.value > created)), false)
      else Reply(v.(mem := WithExpiry(v.mem, v.slot.peerCert.value > created)), false)
  }

  function CheckCertificateExpires(v: View): View {
    CheckReads(v, 2).view
  }

  function EnsurePVC(v: View): Reply {
    if !v.mem.IsCreating() || v.slot.pvc.Some? then Reply(v, false)
    else Reply(v.(slot := v.slot.(pvc := Some(Pvc(false, v.mem.status.phase == Recreating, false)))), true)
  }

  function EnsurePod(v: View, now: Time): View {
    if v.slot.pod.None? then
      View(if v.mem.status.phase == Running then AsFailed(v.mem, now) else v.mem,
           v.slot.(pod := Some(GetPod(v.mem, now))), v.etcd)
    else if v.mem.status.phase == Running && !v.slot.pod.value.Ready() then
      v.(mem := AsFailed(v.mem, now))
    else if v.slot.pod.value.Ready() then
      v.(mem := v.mem.(status := v.mem.status.(phase := Running, version := v.mem.spec.version)))
    else
      v
  }

  function UpdatePod(v: View): Reply {
    var deleted := DeletePod(v);
    if deleted.stop then deleted else Reply(deleted.view.(mem := WithPhase(deleted.view.mem, Updating)), false)
  }

  // ----- composition

  function Forward(v: View, now: Time): View {
    var certs := EnsureCertificates(v);
    if certs.stop then certs.view else
      var pvc := EnsurePVC(CheckCertificateExpires(certs.view));
      if pvc.stop then pvc.view else
        if pvc.view.mem.ShouldUpdate() then
          var update := UpdatePod(pvc.view);
          if update.stop then update.view else EnsurePod(update.view, now)
        else
          EnsurePod(pvc.view, now)
  }

  function Stages(i: nat, v: View, now: Time): View {
    if v.mem.spec.broken then
      var repair := Repair(i, v);
      if repair.stop then repair.view else Forward(repair.view, now)
    else
      Forward(v, now)
  }

  /** An uninterrupted reconcile of member i; the status is written at the end in any case. */
  function Reconcile(i: nat, slot: Slot, etcd: Membership, now: Time): (Slot, Membership) {
    var v := WriteStatus(Stages(i, View(slot.member, slot, etcd), now));
    (v.slot, v.etcd)
  }

  function ReconcileMember(w: World, i: nat): World
    requires i < |w.slots|
  {
    var (slot, etcd) := Reconcile(i, w.slots[i], w.etcd, w.now);
    w.(slots := w.slots[i := slot], etcd := etcd)
  }

  // ----- the stores and the controller

  class Store {
    var cluster: Cluster
    var slots: seq<Slot>
    var etcd: Membership
    var now: Time

    constructor (w: World)
      ensures Value() == w
    {
      cluster, slots, etcd, now := w.cluster, w.slots, w.etcd, w.now;
    }

    function Value(): World
      reads this
    {
      World(cluster, slots, etcd, now)
    }

    /** member is a working copy of member i. */
    predicate Loaded(i: nat, member: MemberObject)
      reads this
    {
      i < |slots| && member.name == slots[i].member.name && member.namespace == slots[i].member.namespace
    }

    function ViewOf(i: nat, member: MemberObject): View
      requires Loaded(i, member)
      reads this, member
    {
      View(member.Value(), slots[i], etcd)
    }

    /** What every stage leaves alone: the other slots, the cluster and the clock. */
    twostate predicate OnlySlot(i: nat)
      requires old(i < |slots|)
      reads this
    {
      |slots| == old(|slots|) && slots == old(slots)[i := slots[i]] && cluster == old(cluster) && now == old(now)
    }

    method UpdateStatus(i: nat, member: MemberObject)
      requires Loaded(i, member)
      modifies this`slots, member
      ensures OnlySlot(i) && Loaded(i, member)
      ensures ViewOf(i, member) == WriteStatus(old(ViewOf(i, member)))
    {
      if member.resourceVersion == slots[i].member.resourceVersion {
        var stored := PutStatus(slots[i].member, member.status);
        slots := slots[i := slots[i].(member := stored)];
        member.resourceVersion, member.spec, member.status := stored.resourceVersion, stored.spec, stored.status;
      }
    }

    method Update(i: nat, member: MemberObject)
      requires Loaded(i, member)
      modifies this`slots, member
      ensures OnlySlot(i) && Loaded(i, member)
      ensures ViewOf(i, member) == WriteSpec(old(ViewOf(i, member)))
    {
      if member.resourceVersion == slots[i].member.resourceVersion {
        var stored := PutSpec(slots[i].member, member.spec);
        slots := slots[i := slots[i].(member := stored)];
        member.resourceVersion, member.spec, member.status := stored.resourceVersion, stored.spec, stored.status;
      }
    }
  }

  class MemberReconciler {
    const store: Store

    constructor (store: Store)
      ensures this.store == store
    {
      this.store := store;
    }

    /** A request for a member that does not exist is ignored. */
    method Reconcile(i: nat)
      modifies store`slots, store`etcd
      ensures i >= |old(store.slots)| ==> store.Value() == old(store.Value())
      ensures i < |old(store.slots)| ==>
        store.Value() == ReconcileMember(old(store.Value()), i)
    {
      if i >= |store.slots| {
        return;
      }
      var member := new MemberObject(store.slots[i].member);
      RunStages(i, member);
      store.UpdateStatus(i, member);
    }

    method RunStages(i: nat, member: MemberObject)
      requires store.Loaded(i, member)
      modifies store`slots, store`etcd, member
      ensures store.OnlySlot(i) && store.Loaded(i, member)
      ensures store.ViewOf(i, member) == Stages(i, old(store.ViewOf(i, member)), store.now)
    {
      var stop: bool;
      if member.spec.broken {
        stop := RepairMember(i, member);
        if stop {
          return;
        }
      }
      stop := CreateCertificates(i, member);
      if stop {
        return;
      }
      stop := CheckExpiry(i, member, 2);
      assert !stop;
      stop := CreatePVC(i, member);
      if stop {
        return;
      }
      if member.Value().ShouldUpdate() {
        stop := RemovePod(i, member);
        if stop {
          return;
        }
        member.status := member.status.(phase := Updating);
      }
      CreatePod(i, member);
    }

    method RemovePod(i: nat, member: MemberObject) returns (stop: bool)
      requires store.Loaded(i, member)
      modifies store`slots
      ensures store.OnlySlot(i) && store.Loaded(i, member)
      ensures Reply(store.ViewOf(i, member), stop) == DeletePod(old(store.ViewOf(i, member)))
    {
      var slot := store.slots[i];
      if slot.pod.None? {
        return false;
      }
      store.slots := store.slots[i := slot.(pod := Some(slot.pod.value.(terminating := true)))];
      return true;
    }

    method RemovePVC(i: nat, member: MemberObject) returns (stop: bool)
      requires store.Loaded(i, member)
      modifies store`slots
      ensures store.OnlySlot(i) && store.Loaded(i, member)
      ensures Reply(store.ViewOf(i, member), stop) == DeletePVC(old(store.ViewOf(i, member)))
    {
      var slot := store.slots[i];
      if slot.pvc.None? {
        return false;
      }
      store.slots := store.slots[i := slot.(pvc := Some(slot.pvc.value.(terminating := true)))];
      return true;
    }

    method Readd(i: nat, member: MemberObject) returns (stop: bool)
      requires store.Loaded(i, member)
      modifies store`etcd
      ensures store.Loaded(i, member)
      ensures Reply(store.ViewOf(i, member), stop) == ReaddToCluster(i, old(store.ViewOf(i, member)))
    {
      var list := store.etcd.entries;
      ghost var whole := RemoveAll(list, NamedIds(list, i));
      var k := 0;
      while k < |list|
        invariant 0 <= k <= |list|
        invariant store.etcd.nextId == old(store.etcd.nextId)
        invariant RemoveAll(store.etcd.entries, NamedIds(list[k..], i)) == whole
      {
        if list[k].name == Some(i) {
          if !HasId(store.etcd.entries, list[k].id) {
            return true;
          }
          store.etcd := store.etcd.(entries := Without(store.etcd.entries, list[k].id));
        }
        k := k + 1;
      }
      if HasPeer(store.etcd.entries, i) {
        return true;
      }
      store.etcd := Add(store.etcd, i);
      return false;
    }

    method RepairMember(i: nat, member: MemberObject) returns (stop: bool)
      requires store.Loaded(i, member)
      modifies store`slots, store`etcd, member
      ensures store.OnlySlot(i) && store.Loaded(i, member)
      ensures Reply(store.ViewOf(i, member), stop) == Repair(i, old(store.ViewOf(i, member)))
    {
      stop := RemovePod(i, member);
      if stop {
        return;
      }
      stop := RemovePVC(i, member);
      if stop {
        return;
      }
      stop := Readd(i, member);
      if stop {
        return;
      }
      member.status := member.status.(phase := Recreating);
      member.status := member.status.(failedTime := ZERO_TIME);
      store.UpdateStatus(i, member);
      member.spec := member.spec.(broken := false);
      store.Update(i, member);
    }

    method CreateCertificates(i: nat, member: MemberObject) returns (stop: bool)
      requires store.Loaded(i, member)
      modifies store`slots
      ensures store.OnlySlot(i) && store.Loaded(i, member)
      ensures Reply(store.ViewOf(i, member), stop) == EnsureCertificates(old(store.ViewOf(i, member)))
    {
      var prepare := false;
      var slot := store.slots[i];
      if slot.clientCert.None? {
        slot := slot.(clientCert := Some(ZERO_TIME));
      }
      prepare := prepare || slot.clientCert.value == ZERO_TIME;
      if slot.peerCert.None? {
        slot := slot.(peerCert := Some(ZERO_TIME));
      }
      prepare := prepare || slot.peerCert.value == ZERO_TIME;
      store.slots := store.slots[i := slot];
      return prepare;
    }

    /** answered: how many certificate reads succeed before one fails with an error. */
    method CheckExpiry(i: nat, member: MemberObject, answered: nat) returns (stop: bool)
      requires store.Loaded(i, member)
      modifies member
      ensures store.Loaded(i, member)
      ensures Reply(store.ViewOf(i, member), stop) == CheckReads(old(store.ViewOf(i, member)), answered)
    {
      var slot := store.slots[i];
      if slot.pod.None? {
        return false;
      }
      var certs := [slot.clientCert, slot.peerCert];
      var k := 0;
      while k < 2
        invariant 0 <= k <= 2 && k <= answered
        invariant k > 0 ==> slot.clientCert.Some?
        invariant k > 1 ==> slot.peerCert.Some?
        invariant member.resourceVersion == old(member.resourceVersion) && member.spec == old(member.spec)
        invariant k == 0 ==> member.status == old(member.status)
        invariant k > 0 ==>
          member.status == old(member.status).(certificateExpires := certs[k - 1].value > slot.pod.value.created)
      {
        if k == answered {
          return true;
        }
        if certs[k].None? {
          return false;
        }
        member.status := member.status.(certificateExpires := certs[k].value > slot.pod.value.created);
        k := k + 1;
      }
      return false;
    }

    method CreatePVC(i: nat, member: MemberObject) returns (stop: bool)
      requires store.Loaded(i, member)
      modifies store`slots
      ensures store.OnlySlot(i) && store.Loaded(i, member)
      ensures Reply(store.ViewOf(i, member), stop) == EnsurePVC(old(store.ViewOf(i, member)))
    {
      if !member.Value().IsCreating() {
        return false;
      }
      var slot := store.slots[i];
      if slot.pvc.Some? {
        return false;
      }
      store.slots := store.slots[i := slot.(pvc := Some(Pvc(false, member.status.phase == Recreating, false)))];
      return true;
    }

    method CreatePod(i: nat, member: MemberObject)
      requires store.Loaded(i, member)
      modifies store`slots, member
      ensures store.OnlySlot(i) && store.Loaded(i, member)
      ensures store.ViewOf(i, member) == EnsurePod(old(store.ViewOf(i, member)), store.now)
    {
      var slot := store.slots[i];
      if slot.pod.None? {
        store.slots := store.slots[i := slot.(pod := Some(GetPod(member.Value(), store.now)))];
        if member.status.phase == Running {
          member.SetFailed(store.now);
        }
        return;
      }
      var pod := slot.pod.value;
      var ready := |pod.containerStatuses| == pod.containers;
      for k := 0 to |pod.containerStatuses|
        invariant ready <==> |pod.containerStatuses| == pod.containers
                             && forall j :: 0 <= j < k ==> pod.containerStatuses[j]
      {
        ready := ready && pod.containerStatuses[k];
      }
      if member.status.phase == Running && !ready {
        member.SetFailed(store.now);
      } else if ready {
        member.status := member.status.(phase := Running);
        member.status := member.status.(version := member.spec.version);
      }
    }
  }
}
