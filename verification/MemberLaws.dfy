/** What one reconcile of a member does, said of the stored objects alone: for every state of a member, its
    pod, volume, certificates and place in etcd's list, what is stored afterwards. */

module MemberLaws {
  import opened Wrappers
  import opened Api
  import opened Etcd
  import opened Objects
  import opened MemberController
  import opened Invariant
  import opened AtomicRuns
  import opened Limits

  // ----- a broken member

  /** Teardown goes one object at a time: first the pod. */
  lemma BrokenWithPod(i: nat, s: Slot, etcd: Membership, now: Time)
    requires s.member.spec.broken && s.pod.Some?
    ensures Reconcile(i, s, etcd, now) == (s.(pod := Some(s.pod.value.(terminating := true))), etcd)
  {
  }

  /** Then the volume. */
  lemma BrokenWithVolume(i: nat, s: Slot, etcd: Membership, now: Time)
    requires s.member.spec.broken && s.pod.None? && s.pvc.Some?
    ensures Reconcile(i, s, etcd, now) == (s.(pvc := Some(s.pvc.value.(terminating := true))), etcd)
  {
  }

  /** An earlier add whose process never started blocks the next one: nothing changes. */
  lemma BrokenAndUnstarted(i: nat, s: Slot, etcd: Membership, n: nat, now: Time)
    requires s.member.spec.broken && s.pod.None? && s.pvc.None? && ListOk(etcd, n) && Nameless(etcd.entries, i)
    ensures Reconcile(i, s, etcd, now) == (s, etcd)
  {
    ReaddsUnlessNameless(etcd, n, i);
    NamelessListed(etcd, n, i);
  }

  /** Otherwise the member's old entry goes, a nameless one comes, the member is Recreating and no longer
      marked, and if its certificates are issued it has a new volume. */
  lemma BrokenAndGone(i: nat, s: Slot, etcd: Membership, n: nat, now: Time)
    requires s.member.spec.broken && s.pod.None? && s.pvc.None? && ListOk(etcd, n) && !Nameless(etcd.entries, i)
    ensures var (r, e) := Reconcile(i, s, etcd, now);
            && r.member.spec == s.member.spec.(broken := false)
            && r.member.status == s.member.status.(phase := Recreating, failedTime := 0)
            && r.pod == None
            && r.clientCert == (if s.clientCert.None? then Some(0) else s.clientCert)
            && r.peerCert == (if s.peerCert.None? then Some(0) else s.peerCert)
            && r.pvc == (if HasCertificates(s) then Some(Pvc(false, true, false)) else None)
            && forall x :: x in e.entries <==> (x in etcd.entries && x.peer != i) || x == Entry(etcd.nextId, None, i)
  {
    ReaddsUnlessNameless(etcd, n, i);
    RepairUpToDate(i, View(s.member, s, etcd));
    ReaddedList(etcd, n, i);
  }

  lemma ReaddedList(m: Membership, n: nat, i: nat)
    requires ListOk(m, n) && !Nameless(m.entries, i)
    ensures var (entries, ok) := RemoveAll(m.entries, NamedIds(m.entries, i));
            ok && !HasPeer(entries, i) && forall x :: x in entries <==> x in m.entries && x.peer != i
  {
    ReaddsUnlessNameless(m, n, i);
    NamedIdsOf(m.entries, i);
    var ids := NamedIds(m.entries, i);
    if ids == [] {
      assert !HasPeer(m.entries, i);
      assert RemoveAll(m.entries, ids) == (m.entries, true);
    } else {
      assert ids == [ids[0]] && ids[0] in ids;
      var k := SolePeer(m, n, i, ids[0]);
      assert RemoveAll(m.entries, ids) == (Without(m.entries, ids[0]), true);
      assert forall j :: 0 <= j < |m.entries| ==> (m.entries[j].id == ids[0] <==> m.entries[j].peer == i);
    }
  }

  // ----- a check of the certificates

  /** The flag follows the certificate that was read last; an error ends the reconcile, a missing one only the check. */
  lemma ChecksInOrder(v: View)
    requires v.slot.pod.Some?
    ensures CheckReads(v, 0) == Reply(v, true)
    ensures v.slot.clientCert.None? ==> CheckReads(v, 1) == CheckReads(v, 2) == Reply(v, false)
    ensures v.slot.clientCert.Some? ==>
      var flag := v.slot.clientCert.value > v.slot.pod.value.created;
      var client := v.(mem := v.mem.(status := v.mem.status.(certificateExpires := flag)));
      CheckReads(v, 1) == Reply(client, true) && (v.slot.peerCert.None? ==> CheckReads(v, 2) == Reply(client, false))
    ensures v.slot.clientCert.Some? && v.slot.peerCert.Some? ==>
      var flag := v.slot.peerCert.value > v.slot.pod.value.created;
      CheckReads(v, 2) == Reply(v.(mem := v.mem.(status := v.mem.status.(certificateExpires := flag))), false)
  {
  }

  // ----- a member that is not broken

  /** Both certificates exist and have been issued. */
  predicate HasCertificates(s: Slot) {
    s.clientCert.Some? && s.clientCert.value != 0 && s.peerCert.Some? && s.peerCert.value != 0
  }

  /** Without certificates nothing else is made: the missing ones are asked for. */
  lemma NeedsCertificates(i: nat, s: Slot, etcd: Membership, now: Time)
    requires !s.member.spec.broken && !HasCertificates(s)
    ensures Reconcile(i, s, etcd, now)
            == (s.(clientCert := if s.clientCert.None? then Some(0) else s.clientCert,
                   peerCert := if s.peerCert.None? then Some(0) else s.peerCert), etcd)
  {
  }

  /** The flag after a check: whether the peer's certificate is newer than the pod. Without a pod it stays. */
  function FlagAfter(s: Slot): bool
    requires HasCertificates(s)
  {
    if s.pod.Some? then s.peerCert.value > s.pod.value.created else s.member.status.certificateExpires
  }

  /** m with this status stored. */
  function With(m: Member, phase: MemberPhase, version: string, failedTime: Time, flag: bool): Member {
    if m.status == MemberStatus(version, phase, failedTime, flag) then m
    else Member(m.name, m.namespace, m.resourceVersion + 1, m.spec, MemberStatus(version, phase, failedTime, flag))
  }

  predicate Starting(phase: MemberPhase) {
    phase in {NoPhase, Creating, Recreating}
  }

  predicate Ready(pod: Pod) {
    |pod.containerStatuses| == pod.containers && false !in pod.containerStatuses
  }

  /** Running, and asked for another version or, with the flag up, for a new certificate. */
  predicate MustReplace(s: Slot)
    requires HasCertificates(s)
  {
    s.member.status.phase == Running
    && (s.member.spec.version != s.member.status.version || (s.member.spec.certificateUpdate && FlagAfter(s)))
  }

  lemma NeedsVolume(i: nat, s: Slot, etcd: Membership, now: Time)
    requires !s.member.spec.broken && HasCertificates(s) && Starting(s.member.status.phase) && s.pvc.None?
    ensures var st := s.member.status;
            Reconcile(i, s, etcd, now)
            == (s.(pvc := Some(Pvc(false, st.phase == Recreating, false)),
                   member := With(s.member, st.phase, st.version, st.failedTime, FlagAfter(s))), etcd)
  {
  }

  predicate HasVolume(s: Slot) {
    Starting(s.member.status.phase) ==> s.pvc.Some?
  }

  lemma OldPodGoes(i: nat, s: Slot, etcd: Membership, now: Time)
    requires !s.member.spec.broken && HasCertificates(s) && MustReplace(s) && s.pod.Some?
    ensures var st := s.member.status;
            Reconcile(i, s, etcd, now)
            == (s.(pod := Some(s.pod.value.(terminating := true)),
                   member := With(s.member, Running, st.version, st.failedTime, FlagAfter(s))), etcd)
  {
  }

  lemma NewPodComes(i: nat, s: Slot, etcd: Membership, now: Time)
    requires !s.member.spec.broken && HasCertificates(s) && MustReplace(s) && s.pod.None?
    ensures var m := s.member;
            Reconcile(i, s, etcd, now)
            == (s.(pod := Some(Pod(m.spec.version, New, m.spec.backup != "", now, 1, [], false)),
                   member := With(m, Updating, m.status.version, m.status.failedTime, m.status.certificateExpires)),
                etcd)
  {
  }

  /** A missing pod is made: of the desired version, with one container, joining an existing cluster and without
      restore exactly for a member that a repair recreates. A Running member has failed thereby. */
  lemma PodIsMade(i: nat, s: Slot, etcd: Membership, now: Time)
    requires !s.member.spec.broken && HasCertificates(s) && HasVolume(s) && !MustReplace(s) && s.pod.None?
    ensures var m, st := s.member, s.member.status;
            var pod := if st.phase == Recreating then Pod(m.spec.version, Existing, false, now, 1, [], false)
                       else Pod(m.spec.version, New, m.spec.backup != "", now, 1, [], false);
            Reconcile(i, s, etcd, now)
            == (s.(pod := Some(pod),
                   member := if st.phase == Running then With(m, Failed, st.version, now, st.certificateExpires)
                             else m), etcd)
  {
  }

  /** An existing pod: ready makes the member Running at the desired version, not ready makes a Running member fail. */
  lemma PodIsThere(i: nat, s: Slot, etcd: Membership, now: Time)
    requires !s.member.spec.broken && HasCertificates(s) && HasVolume(s) && !MustReplace(s) && s.pod.Some?
    ensures var m, st := s.member, s.member.status;
            Reconcile(i, s, etcd, now)
            == (s.(member := if Ready(s.pod.value) then With(m, Running, m.spec.version, st.failedTime, FlagAfter(s))
                             else if st.phase == Running then With(m, Failed, st.version, now, FlagAfter(s))
                             else With(m, st.phase, st.version, st.failedTime, FlagAfter(s))), etcd)
  {
    assert Ready(s.pod.value) <==> s.pod.value.Ready();
  }
}
