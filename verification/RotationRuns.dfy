/** A rotation comes to its end: whole reconciles that replace every pod whose renewed certificate has been
    noticed, one after the other, and leave no request and no flag. */

module RotationRuns {
  import opened Wrappers
  import opened Api
  import opened Etcd
  import opened Objects
  import opened MemberController
  import opened ClusterController
  import opened Rotation
  import opened AtomicRuns
  import opened Requests
  import opened Startup
  import MemberLaws
  import ClusterLaws

  /** Running at the version with a ready pod and issued certificates. */
  predicate Sound(s: Slot, v: string, now: Time) {
    s.member.status.phase == Running && s.member.spec.version == v && s.member.status.version == v
    && !s.member.spec.broken && s.PodReady() && s.Issued() && FromPast(s, now)
  }

  // ----- one member that is asked

  function Renew(k: nat): seq<Act> {
    [MemberAct(k), EnvAct(PodGone(k)), MemberAct(k), EnvAct(PodReports(k, [true]))] + [MemberAct(k)]
  }

  /** The member with a pod made now. */
  function Renewed(s: Slot, now: Time): Slot {
    s.(pod := Some(Pod(s.member.spec.version, New, s.member.spec.backup != "", now, 1, [true], false)),
       pvc := if s.pvc.Some? then Some(s.pvc.value.(seenReady := true)) else None,
       member := s.member.(resourceVersion := s.member.resourceVersion + 2,
                           status := s.member.status.(certificateExpires := false)))
  }

  lemma RenewStages(k: nat, s: Slot, etcd: Membership, v: string, now: Time) returns (going: Slot, made: Slot)
    requires Sound(s, v, now) && s.member.spec.certificateUpdate && s.member.status.certificateExpires && PeerNewer(s)
    ensures Reconcile(k, s, etcd, now) == (going, etcd) && Reconcile(k, going.(pod := None), etcd, now) == (made, etcd)
    ensures Reconcile(k, WithReports(made, [true]), etcd, now) == (Renewed(s, now), etcd)
  {
    MemberLaws.OldPodGoes(k, s, etcd, now);
    going := s.(pod := Some(s.pod.value.(terminating := true)));
    var gone := s.(pod := None);
    MemberLaws.NewPodComes(k, gone, etcd, now);
    made := Reconcile(k, gone, etcd, now).0;
    var ready := WithReports(made, [true]);
    assert MemberLaws.Ready(ready.pod.value);
    MemberLaws.PodIsThere(k, ready, etcd, now);
  }

  lemma RenewsMember(w: World, k: nat, v: string)
    requires k < |w.slots| && Sound(w.slots[k], v, w.now) && PeerNewer(w.slots[k])
    requires w.slots[k].member.spec.certificateUpdate && w.slots[k].member.status.certificateExpires
    ensures RunActs(w, Renew(k)) == Startup.With(w, k, Renewed(w.slots[k], w.now))
  {
    hide RunActs, ApplyAct;
    var s := w.slots[k];
    var going, made := RenewStages(k, s, w.etcd, v, w.now);
    FourActs(w, MemberAct(k), EnvAct(PodGone(k)), MemberAct(k), EnvAct(PodReports(k, [true])));
    LastAct(w, [MemberAct(k), EnvAct(PodGone(k)), MemberAct(k), EnvAct(PodReports(k, [true]))], MemberAct(k));
    assert Startup.With(w, k, s) == w;
    MemberSets(w, k, s, going);
    EnvSets(w, PodGone(k), going);
    MemberSets(w, k, going.(pod := None), made);
    EnvSets(w, PodReports(k, [true]), made);
    MemberSets(w, k, WithReports(made, [true]), Renewed(s, w.now));
  }

  /** A flag without a renewed peer certificate is lowered by the next check. */
  lemma LowersFlag(w: World, k: nat, v: string)
    requires k < |w.slots| && Sound(w.slots[k], v, w.now) && !PeerNewer(w.slots[k])
    requires w.slots[k].member.status.certificateExpires
    ensures RunActs(w, [MemberAct(k)]) == Startup.With(w, k, Flagged(w.slots[k], false))
  {
    OneAct(w, MemberAct(k));
    assert MemberLaws.Ready(w.slots[k].pod.value);
    MemberLaws.PodIsThere(k, w.slots[k], w.etcd, w.now);
  }

  // ----- the members below k are through, the others have noticed their renewals

  predicate Through(s: Slot) {
    !s.member.status.certificateExpires && !PeerNewer(s)
  }

  predicate Rotating(w: World, k: nat) {
    |w.slots| == Count(w.cluster.spec.size) && k <= |w.slots|
    && forall j :: 0 <= j < |w.slots| ==>
         && Sound(w.slots[j], w.cluster.spec.version, w.now)
         && (j < k ==> Through(w.slots[j]))
         && (j >= k ==> !w.slots[j].member.spec.certificateUpdate
                        && (PeerNewer(w.slots[j]) ==> w.slots[j].member.status.certificateExpires))
  }

  lemma FoundAll(w: World, k: nat)
    requires Rotating(w, k)
    ensures ClusterLaws.Found(w) == Members(w.slots) && ClusterLaws.AllServe(ClusterLaws.Found(w))
  {
    forall j | 0 <= j < |w.slots|
      ensures Present(w)[j] == w.slots[j]
    {
      ClusterLaws.CreatesMissing(w, j);
    }
    ClusterLaws.CreatesMissing(w, 0);
    assert Present(w) == w.slots && w.slots[..|w.slots|] == w.slots;
  }

  /** The cluster asks the first member with its flag up. */
  lemma AsksFirst(w: World, k: nat) returns (t: World)
    requires Rotating(w, k) && k < |w.slots| && w.slots[k].member.status.certificateExpires
    ensures t == ReconcileCluster(w, true)
    ensures t == w.(cluster := t.cluster, slots := t.slots)
    ensures t.cluster.spec == w.cluster.spec && |t.slots| == |w.slots|
    ensures forall j :: 0 <= j < |w.slots| ==>
              t.slots[j] == if j < k then ClusterLaws.WithRequest(w.slots[j], false)
                            else if j == k then ClusterLaws.WithRequest(w.slots[k], true) else w.slots[j]
  {
    FoundAll(w, k);
    var ms := ClusterLaws.Found(w);
    assert ms[k].status.certificateExpires;
    ClusterLaws.FirstNotReached(w, k);
    t := ReconcileCluster(w, true);
  }

  /** t is w after the turns of the members from lo to hi: whoever had a renewed certificate has a new pod. */
  predicate PodsRenewed(w: World, t: World, lo: nat, hi: nat) {
    |t.slots| == |w.slots| && t.now == w.now && t.cluster.spec == w.cluster.spec
    && forall j :: 0 <= j < |w.slots| ==>
         && t.slots[j].peerCert == w.slots[j].peerCert
         && (j >= hi ==> t.slots[j] == w.slots[j])
         && t.slots[j].pod == if lo <= j < hi && PeerNewer(w.slots[j]) then Renewed(w.slots[j], w.now).pod
                              else w.slots[j].pod
  }

  lemma TurnOf(w: World, asked: World, k: nat) returns (acts: seq<Act>)
    requires Rotating(w, k) && k < |w.slots| && w.slots[k].member.status.certificateExpires
    requires asked == w.(cluster := asked.cluster, slots := asked.slots) && |asked.slots| == |w.slots|
    requires asked.slots[k] == ClusterLaws.WithRequest(w.slots[k], true)
    ensures var r := if PeerNewer(w.slots[k]) then Renewed(asked.slots[k], w.now) else Flagged(asked.slots[k], false);
            RunActs(asked, acts) == Startup.With(asked, k, r)
  {
    var v := w.cluster.spec.version;
    if PeerNewer(w.slots[k]) {
      RenewsMember(asked, k, v);
      acts := Renew(k);
    } else {
      LowersFlag(asked, k, v);
      acts := [MemberAct(k)];
    }
  }

  lemma RotatesNext(w: World, k: nat) returns (acts: seq<Act>)
    requires Rotating(w, k) && k < |w.slots|
    ensures Rotating(RunActs(w, acts), k + 1) && PodsRenewed(w, RunActs(w, acts), k, k + 1)
  {
    if !w.slots[k].member.status.certificateExpires {
      acts := [];
    } else {
      var asked := AsksFirst(w, k);
      OneAct(w, ClusterAct(true));
      var turn := TurnOf(w, asked, k);
      ActsAppend(w, [ClusterAct(true)], turn);
      acts := [ClusterAct(true)] + turn;
    }
  }

  lemma {:induction false} RotatesFrom(w: World, k: nat) returns (acts: seq<Act>)
    requires Rotating(w, k)
    ensures Rotating(RunActs(w, acts), |w.slots|) && PodsRenewed(w, RunActs(w, acts), k, |w.slots|)
    decreases |w.slots| - k
  {
    acts := [];
    if k < |w.slots| {
      var first := RotatesNext(w, k);
      var rest := RotatesFrom(RunActs(w, first), k + 1);
      ActsAppend(w, first, rest);
      acts := first + rest;
    }
  }

  lemma TakesBack(w: World) returns (t: World)
    requires Rotating(w, |w.slots|)
    ensures t == ReconcileCluster(w, true)
    ensures t.cluster.status == ClusterStatus(ClusterRunning, w.cluster.spec.version, false)
    ensures |t.slots| == |w.slots| && t.now == w.now && t.cluster.spec == w.cluster.spec
    ensures forall j :: 0 <= j < |w.slots| ==> t.slots[j] == ClusterLaws.WithRequest(w.slots[j], false)
  {
    FoundAll(w, |w.slots|);
    ClusterLaws.AllReached(w);
    t := ReconcileCluster(w, true);
  }

  /** From a cluster at rest whose renewals have been noticed, whole reconciles, with pods that go when deleted and come
      up when made, bring the rotation to its end: exactly the pods that were older than their peer certificate
      have been made anew, nobody is asked, no flag is up, and the cluster reports its version and no expiry. */
  lemma RotationCompletes(w: World) returns (acts: seq<Act>)
    requires Rotating(w, 0)
    ensures var t := RunActs(w, acts);
            && t.cluster.status == ClusterStatus(ClusterRunning, w.cluster.spec.version, false)
            && |t.slots| == |w.slots|
            && forall j :: 0 <= j < |w.slots| ==>
                 && Sound(t.slots[j], w.cluster.spec.version, w.now)
                 && !t.slots[j].member.spec.certificateUpdate && !t.slots[j].member.status.certificateExpires
                 && !PeerNewer(t.slots[j])
                 && t.slots[j].pod
                    == if PeerNewer(w.slots[j]) then
                         var restore := w.slots[j].member.spec.backup != "";
                         Some(Pod(w.cluster.spec.version, New, restore, w.now, 1, [true], false))
                       else w.slots[j].pod
  {
    var turns := RotatesFrom(w, 0);
    var x := RunActs(w, turns);
    var t := TakesBack(x);
    LastAct(w, turns, ClusterAct(true));
    acts := turns + [ClusterAct(true)];
  }
}
