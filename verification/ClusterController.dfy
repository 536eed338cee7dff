/** The cluster controller: what one reconcile computes from the members it reads, and the
    controller itself, with its loops, as a class proved to compute just that. */

module ClusterController {
  import opened Wrappers
  import opened Api
  import opened Objects
  import opened MemberController
  import opened Topology

  const MINOR_FAILED_TIMEOUT: int := 300

  // ----- what a pass over the members computes

  function CountFailed(ms: seq<Member>): (k: nat)
    ensures k <= |ms|
  {
    if ms == [] then 0 else
      var last := |ms| - 1;
      CountFailed(ms[..last]) + if ms[last].status.phase == Failed then 1 else 0
  }

  function CountCreating(ms: seq<Member>): (k: nat)
    ensures k <= |ms|
  {
    if ms == [] then 0 else
      var last := |ms| - 1;
      CountCreating(ms[..last]) + if ms[last].IsCreating() then 1 else 0
  }

  predicate AnyExpiry(ms: seq<Member>) {
    exists k :: 0 <= k < |ms| && (ms[k].status.certificateExpires || ms[k].spec.certificateUpdate)
  }

  function Classify(failed: nat, creating: nat, size: int): ClusterPhase {
    if failed == 0 && creating == 0 then ClusterRunning
    else if failed == 0 && creating > 0 then ClusterCreating
    else if (failed + creating) * 2 < size then ClusterMinorFailure
    else ClusterFailed
  }

  /** The cluster's working copy after a pass that read the members ms. */
  function Assess(c: Cluster, ms: seq<Member>): Cluster {
    c.(status := c.status.(phase := Classify(CountFailed(ms), CountCreating(ms), c.spec.size),
                           certificateExpires := AnyExpiry(ms)))
  }

  predicate Blocks(m: Member) {
    m.IsCreating() || m.spec.broken
  }

  /** The member that the repair loop holds after reading ms. */
  function Oldest(ms: seq<Member>, cutoff: Time): (best: Option<nat>)
    ensures best.Some? ==> best.value < |ms|
  {
    if ms == [] then None else
      var last := |ms| - 1;
      var best := Oldest(ms[..last], cutoff);
      var min := if best.Some? then ms[best.value].status.failedTime else cutoff;
      if ms[last].status.phase == Failed && ms[last].status.failedTime < min then Some(last) else best
  }

  /** What the repair loop looks for: a Failed member that failed before the cutoff, such that
      nobody failed before it and nobody with a lower ordinal failed at the same time. */
  ghost predicate IsLongestFailed(ms: seq<Member>, cutoff: Time, k: nat) {
    k < |ms| && ms[k].status.phase == Failed && ms[k].status.failedTime < cutoff
    && forall j :: 0 <= j < |ms| && ms[j].status.phase == Failed ==>
         if j < k then ms[k].status.failedTime < ms[j].status.failedTime
         else ms[k].status.failedTime <= ms[j].status.failedTime
  }

  lemma {:induction false} OldestIsLongestFailed(ms: seq<Member>, cutoff: Time)
    ensures Oldest(ms, cutoff).Some? ==> IsLongestFailed(ms, cutoff, Oldest(ms, cutoff).value)
    ensures Oldest(ms, cutoff).None? ==>
      forall k :: 0 <= k < |ms| && ms[k].status.phase == Failed ==> ms[k].status.failedTime >= cutoff
    ensures forall k: nat :: IsLongestFailed(ms, cutoff, k) ==> Oldest(ms, cutoff) == Some(k)
  {
    if ms != [] {
      var last := |ms| - 1;
      var before := ms[..last];
      OldestIsLongestFailed(before, cutoff);
      assert forall j :: 0 <= j < last ==> before[j] == ms[j];
      forall k: nat | IsLongestFailed(ms, cutoff, k)
        ensures Oldest(ms, cutoff) == Some(k)
      {
        if k < last {
          assert IsLongestFailed(before, cutoff, k);
        }
      }
    }
  }

  lemma {:induction false} CountFailedBound(ms: seq<Member>, k: nat)
    requires k < |ms| && ms[k].status.phase == Failed
    ensures CountFailed(ms) > 0
  {
    if k < |ms| - 1 {
      CountFailedBound(ms[..|ms| - 1], k);
    }
  }

  lemma {:induction false} NoneCounted(ms: seq<Member>)
    ensures CountFailed(ms) == 0 && CountCreating(ms) == 0 <==>
            forall k :: 0 <= k < |ms| ==> ms[k].status.phase == Running || ms[k].status.phase == Updating
  {
    if ms != [] {
      var before := ms[..|ms| - 1];
      NoneCounted(before);
      assert forall j :: 0 <= j < |before| ==> before[j] == ms[j];
    }
  }

  predicate Serving(m: Member) {
    m.status.phase == Running || m.status.phase == Updating
  }

  function CountServing(ms: seq<Member>): nat {
    if ms == [] then 0 else
      var last := |ms| - 1;
      CountServing(ms[..last]) + if Serving(ms[last]) then 1 else 0
  }

  lemma {:induction false} EveryoneCounted(ms: seq<Member>)
    ensures CountServing(ms) + CountFailed(ms) + CountCreating(ms) == |ms|
  {
    if ms != [] {
      EveryoneCounted(ms[..|ms| - 1]);
    }
  }

  lemma {:induction false} NoneCreating(ms: seq<Member>)
    ensures CountCreating(ms) == 0 <==> forall k :: 0 <= k < |ms| ==> !ms[k].IsCreating()
  {
    if ms != [] {
      var before := ms[..|ms| - 1];
      NoneCreating(before);
      assert forall k :: 0 <= k < |before| ==> before[k] == ms[k];
    }
  }

  lemma {:induction false} NoneFailed(ms: seq<Member>)
    ensures CountFailed(ms) == 0 <==> forall k :: 0 <= k < |ms| ==> ms[k].status.phase != Failed
  {
    if ms != [] {
      var before := ms[..|ms| - 1];
      NoneFailed(before);
      assert forall k :: 0 <= k < |before| ==> before[k] == ms[k];
    }
  }

  /** What the phase of a cluster says of all its members: Running and Creating that none has failed, a minor
      failure that a strict majority is serving all the same, Failed that it is not. */
  lemma PhaseMeans(c: Cluster, ms: seq<Member>)
    requires |ms| == Count(c.spec.size)
    ensures var phase := Assess(c, ms).status.phase;
            var failed := exists k :: 0 <= k < |ms| && ms[k].status.phase == Failed;
            var creating := exists k :: 0 <= k < |ms| && ms[k].IsCreating();
            && (phase == ClusterRunning <==> forall k :: 0 <= k < |ms| ==> Serving(ms[k]))
            && (phase == ClusterCreating <==> !failed && creating)
            && (phase == ClusterMinorFailure <==> failed && CountServing(ms) * 2 > |ms|)
            && (phase == ClusterFailed <==> failed && CountServing(ms) * 2 <= |ms|)
  {
    EveryoneCounted(ms);
    NoneCreating(ms);
    NoneFailed(ms);
    NoneCounted(ms);
  }

  lemma Appended(ms: seq<Member>, m: Member)
    ensures CountFailed(ms + [m]) == CountFailed(ms) + if m.status.phase == Failed then 1 else 0
    ensures CountCreating(ms + [m]) == CountCreating(ms) + if m.IsCreating() then 1 else 0
    ensures AnyExpiry(ms + [m]) <==> AnyExpiry(ms) || m.status.certificateExpires || m.spec.certificateUpdate
  {
  }

  lemma OneMore(ms: seq<Member>, i: nat, cutoff: Time)
    requires i < |ms|
    ensures CountFailed(ms[..i + 1]) == CountFailed(ms[..i]) + if ms[i].status.phase == Failed then 1 else 0
    ensures Oldest(ms[..i + 1], cutoff)
      == var best := Oldest(ms[..i], cutoff);
         var min := if best.Some? then ms[best.value].status.failedTime else cutoff;
         if ms[i].status.phase == Failed && ms[i].status.failedTime < min then Some(i) else best
  {
    assert ms[..i + 1][..i] == ms[..i];
  }

  lemma PrefixMembers(slots: seq<Slot>, i: nat)
    requires i < |slots|
    ensures Members(slots[..i + 1]) == Members(slots[..i]) + [slots[i].member]
  {
  }

  // ----- an uninterrupted reconcile

  function EnsureSlots(c: Cluster, slots: seq<Slot>, n: nat): (r: seq<Slot>)
    ensures |r| == if |slots| < n then n else |slots|
  {
    if n == 0 then slots else
      var r := EnsureSlots(c, slots, n - 1);
      if |r| < n then r + [NewSlot(GetMember(c, n - 1))] else r
  }

  lemma {:induction false} EnsureSlotsAt(c: Cluster, slots: seq<Slot>, n: nat, k: nat)
    requires k < |EnsureSlots(c, slots, n)|
    ensures EnsureSlots(c, slots, n)[k] == if k < |slots| then slots[k] else NewSlot(GetMember(c, k))
  {
    if n > 0 && k < |EnsureSlots(c, slots, n - 1)| {
      EnsureSlotsAt(c, slots, n - 1, k);
    }
  }

  function WithSpec(s: Slot, spec: MemberSpec): Slot {
    s.(member := PutSpec(s.member, spec))
  }

  function MarkBroken(s: Slot): Slot {
    WithSpec(s, s.member.spec.(broken := true))
  }

  function BumpVersion(s: Slot, version: string): Slot {
    WithSpec(s, s.member.spec.(version := version))
  }

  /** Ask for a new certificate, or take the request back once the expiry flag is gone. */
  function Rotate(s: Slot): Slot {
    WithSpec(s, s.member.spec.(certificateUpdate := s.member.status.certificateExpires))
  }

  function RepairMembers(slots: seq<Slot>, size: int, now: Time): (seq<Slot>, bool)
    requires Count(size) <= |slots|
  {
    var ms := Members(slots[..Count(size)]);
    var best := Oldest(ms, now - MINOR_FAILED_TIMEOUT);
    if exists k :: 0 <= k < |ms| && Blocks(ms[k]) then (slots, true)
    else if best.None? then (slots, true)
    else if CountFailed(ms) * 2 > size then (slots, false)
    else (slots[best.value := MarkBroken(slots[best.value])], false)
  }

  datatype Rollout = Rollout(cluster: Cluster, slots: seq<Slot>, stop: bool)

  function WithClusterPhase(c: Cluster, phase: ClusterPhase): Cluster {
    c.(status := c.status.(phase := phase))
  }

  function UpdateFrom(c: Cluster, slots: seq<Slot>, i: nat): (r: Rollout)
    requires Count(c.spec.size) <= |slots|
    ensures |r.slots| == |slots|
    decreases Count(c.spec.size) - i
  {
    if i >= Count(c.spec.size) then
      Rollout(c.(status := c.status.(phase := ClusterRunning, certificateExpires := false)), slots, false)
    else
      var m := slots[i].member;
      if m.IsCreating() || m.status.phase == Updating then
        Rollout(c, slots, true)
      else if c.spec.version != m.spec.version then
        Rollout(WithClusterPhase(c, ClusterUpdating), slots[i := BumpVersion(slots[i], c.spec.version)], true)
      else if c.status.certificateExpires || m.spec.certificateUpdate then
        var rotated := slots[i := Rotate(slots[i])];
        if m.status.certificateExpires then Rollout(WithClusterPhase(c, ClusterUpdating), rotated, true)
        else if c.spec.version != m.status.version then Rollout(c, rotated, true)
        else UpdateFrom(c, rotated, i + 1)
      else if c.spec.version != m.status.version then
        Rollout(c, slots, true)
      else
        UpdateFrom(c, slots, i + 1)
  }

  function Opened(c: Cluster): Cluster {
    if c.status.phase == NoClusterPhase then WithClusterPhase(c, ClusterCreating) else c
  }

  function WithVersion(c: Cluster): Cluster {
    c.(status := c.status.(version := c.spec.version))
  }

  /** The stages between the preparations (backup schedule, service, certificate authority) and
      the status write. */
  function ClusterStages(c0: Cluster, slots0: seq<Slot>, now: Time): (Cluster, seq<Slot>) {
    var slots := EnsureSlots(c0, slots0, Count(c0.spec.size));
    var c := Assess(c0, Members(slots[..Count(c0.spec.size)]));
    var (repaired, waiting) :=
      if c.status.phase == ClusterMinorFailure then RepairMembers(slots, c.spec.size, now) else (slots, false);
    if waiting then (c, repaired)
    else if c.ShouldUpdate() then
      var r := UpdateFrom(c, repaired, 0);
      (if r.stop then r.cluster else WithVersion(r.cluster), r.slots)
    else (WithVersion(c), repaired)
  }

  function ReconcileCluster(w: World, prepared: bool): World {
    var c0 := Opened(w.cluster);
    var (c, slots) := if prepared then ClusterStages(c0, w.slots, w.now) else (c0, w.slots);
    w.(cluster := PutClusterStatus(w.cluster, c), slots := slots)
  }

  // ----- the controller

  class ClusterReconciler {
    const store: Store

    constructor (store: Store)
      ensures this.store == store
    {
      this.store := store;
    }

    /** prepared: the steps before EnsureMembers neither failed nor asked for a requeue. */
    method Reconcile(prepared: bool)
      modifies store`cluster, store`slots
      ensures store.Value() == ReconcileCluster(old(store.Value()), prepared)
    {
      var cluster := new ClusterObject(store.cluster);
      if cluster.status.phase == NoClusterPhase {
        cluster.status := cluster.status.(phase := ClusterCreating);
      }
      if prepared {
        RunStages(cluster);
      }
      store.cluster := PutClusterStatus(store.cluster, cluster.Value());
    }

    method RunStages(cluster: ClusterObject)
      modifies store`slots, cluster`status
      ensures (cluster.Value(), store.slots) == ClusterStages(old(cluster.Value()), old(store.slots), store.now)
    {
      Ensure(cluster);
      if cluster.status.phase == ClusterMinorFailure {
        var stop := RepairLoop(cluster);
        if stop {
          return;
        }
      }
      if cluster.Value().ShouldUpdate() {
        var stop := UpdateLoop(cluster);
        if stop {
          return;
        }
      }
      cluster.status := cluster.status.(version := cluster.spec.version);
    }

    /** Creates the member if it is absent and loads it otherwise. */
    method EnsureMember(cluster: ClusterObject, i: nat) returns (member: MemberObject)
      requires i <= |store.slots|
      modifies store`slots
      ensures fresh(member) && i < |store.slots| && member.Value() == store.slots[i].member
      ensures store.slots == if i < |old(store.slots)| then old(store.slots)
                             else old(store.slots) + [NewSlot(GetMember(cluster.Value(), i))]
    {
      if i == |store.slots| {
        var m := BuildMember(cluster.Value(), i);
        store.slots := store.slots + [NewSlot(m)];
      }
      member := new MemberObject(store.slots[i].member);
    }

    /** The loop of EnsureMembers. */
    method Survey(cluster: ClusterObject) returns (failedCount: nat, creatingCount: nat, certificateExpires: bool)
      modifies store`slots
      ensures store.slots == EnsureSlots(cluster.Value(), old(store.slots), Count(cluster.spec.size))
      ensures var ms := Members(store.slots[..Count(cluster.spec.size)]);
              failedCount == CountFailed(ms) && creatingCount == CountCreating(ms)
              && certificateExpires == AnyExpiry(ms)
    {
      ghost var c, slots := cluster.Value(), store.slots;
      ghost var read: seq<Member> := [];
      failedCount, creatingCount, certificateExpires := 0, 0, false;
      var i := 0;
      while i < cluster.spec.size
        invariant 0 <= i <= Count(c.spec.size)
        invariant store.slots == EnsureSlots(c, slots, i)
        invariant read == Members(store.slots[..i])
        invariant failedCount == CountFailed(read)
        invariant creatingCount == CountCreating(read)
        invariant certificateExpires == AnyExpiry(read)
      {
        ghost var before := store.slots;
        var member := EnsureMember(cluster, i);
        assert Members(store.slots[..i + 1]) == read + [member.Value()] by {
          assert store.slots[..i] == before[..i];
          PrefixMembers(store.slots, i);
        }
        Appended(read, member.Value());
        read := read + [member.Value()];
        if member.status.phase == Failed {
          failedCount := failedCount + 1;
        } else if member.Value().IsCreating() {
          creatingCount := creatingCount + 1;
        }
        certificateExpires := certificateExpires || member.status.certificateExpires || member.spec.certificateUpdate;
        i := i + 1;
      }
      assert i == Count(c.spec.size);
    }

    method Ensure(cluster: ClusterObject)
      modifies store`slots, cluster`status
      ensures store.slots == EnsureSlots(old(cluster.Value()), old(store.slots), Count(cluster.spec.size))
      ensures cluster.Value() == Assess(old(cluster.Value()), Members(store.slots[..Count(cluster.spec.size)]))
    {
      var failedCount, creatingCount, certificateExpires := Survey(cluster);
      if failedCount == 0 && creatingCount == 0 {
        cluster.status := cluster.status.(phase := ClusterRunning);
      } else if failedCount == 0 && creatingCount > 0 {
        cluster.status := cluster.status.(phase := ClusterCreating);
      } else if (failedCount + creatingCount) * 2 < cluster.spec.size {
        cluster.status := cluster.status.(phase := ClusterMinorFailure);
      } else {
        cluster.status := cluster.status.(phase := ClusterFailed);
      }
      cluster.status := cluster.status.(certificateExpires := certificateExpires);
    }

    /** The loop of the repair: stop when a member blocks it, else the count of the failed members
        and the one to repair. */
    method FindFailed(cluster: ClusterObject, cutoff: Time)
        returns (stop: bool, failedCount: nat, failedNum: nat, failedMember: MemberObject?)
      requires Count(cluster.spec.size) <= |store.slots|
      modifies store`slots
      ensures store.slots == old(store.slots)
      ensures var ms := Members(store.slots[..Count(cluster.spec.size)]);
              (stop <==> exists k :: 0 <= k < |ms| && Blocks(ms[k]))
              && (!stop ==>
                    failedCount == CountFailed(ms)
                    && Oldest(ms, cutoff) == (if failedMember == null then None else Some(failedNum)))
              && (failedMember != null ==>
                    fresh(failedMember) && failedNum < |ms| && failedMember.Value() == ms[failedNum])
    {
      stop, failedCount, failedNum, failedMember := false, 0, 0, null;
      var minFailedTime := cutoff;
      ghost var ms := Members(store.slots[..Count(cluster.spec.size)]);
      var i := 0;
      while i < cluster.spec.size
        invariant 0 <= i <= |ms| && store.slots == old(store.slots)
        invariant !stop && forall k :: 0 <= k < i ==> !Blocks(ms[k])
        invariant failedCount == CountFailed(ms[..i])
        invariant Oldest(ms[..i], cutoff) == if failedMember == null then None else Some(failedNum)
        invariant minFailedTime == if failedMember == null then cutoff else failedMember.Value().status.failedTime
        invariant failedMember != null ==>
          fresh(failedMember) && failedNum < |ms| && failedMember.Value() == ms[failedNum]
      {
        var member := EnsureMember(cluster, i);
        assert member.Value() == ms[i];
        if member.Value().IsCreating() || member.spec.broken {
          stop := true;
          return;
        }
        OneMore(ms, i, cutoff);
        if member.status.phase == Failed {
          failedCount := failedCount + 1;
          if member.status.failedTime < minFailedTime {
            minFailedTime := member.status.failedTime;
            failedMember, failedNum := member, i;
          }
        }
        i := i + 1;
      }
      assert ms[..i] == ms;
    }

    method RepairLoop(cluster: ClusterObject) returns (stop: bool)
      requires Count(cluster.spec.size) <= |store.slots|
      modifies store`slots
      ensures (store.slots, stop) == RepairMembers(old(store.slots), cluster.spec.size, store.now)
    {
      var blocked, failedCount, failedNum, failedMember := FindFailed(cluster, store.now - MINOR_FAILED_TIMEOUT);
      if blocked || failedMember == null {
        return true;
      }
      ghost var ms := Members(store.slots[..Count(cluster.spec.size)]);
      OldestIsLongestFailed(ms, store.now - MINOR_FAILED_TIMEOUT);
      CountFailedBound(ms, failedNum);
      if failedCount * 2 > cluster.spec.size || failedCount == 0 {
        return false;
      }
      failedMember.spec := failedMember.spec.(broken := true);
      store.Update(failedNum, failedMember);
      return false;
    }

    method UpdateLoop(cluster: ClusterObject) returns (stop: bool)
      requires Count(cluster.spec.size) <= |store.slots|
      modifies store`slots, cluster`status
      ensures Rollout(cluster.Value(), store.slots, stop) == UpdateFrom(old(cluster.Value()), old(store.slots), 0)
    {
      var i := 0;
      while i < cluster.spec.size
        invariant 0 <= i <= Count(cluster.spec.size) <= |store.slots|
        invariant cluster.status == old(cluster.status)
        invariant UpdateFrom(cluster.Value(), store.slots, i) == UpdateFrom(old(cluster.Value()), old(store.slots), 0)
      {
        var member := EnsureMember(cluster, i);
        if member.Value().IsCreating() || member.status.phase == Updating {
          return true;
        }
        if cluster.spec.version != member.spec.version {
          member.spec := member.spec.(version := cluster.spec.version);
          cluster.status := cluster.status.(phase := ClusterUpdating);
          store.Update(i, member);
          return true;
        }
        if cluster.status.certificateExpires || member.spec.certificateUpdate {
          member.spec := member.spec.(certificateUpdate := member.status.certificateExpires);
          store.Update(i, member);
          if member.spec.certificateUpdate {
            cluster.status := cluster.status.(phase := ClusterUpdating);
            return true;
          }
        }
        if cluster.spec.version != member.status.version {
          return true;
        }
        i := i + 1;
      }
      cluster.status := cluster.status.(phase := ClusterRunning);
      cluster.status := cluster.status.(certificateExpires := false);
      return false;
    }
  }
}
