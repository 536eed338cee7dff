/** Safety of repairs over every interleaved run: which member is torn down, when, and what etcd's
    membership list looks like meanwhile. */

module Repairs {
  import opened Wrappers
  import opened Api
  import opened Etcd
  import opened Objects
  import opened MemberController
  import opened ClusterController
  import opened Interleaving
  import opened Invariant

  function Reached(w: World, steps: seq<Step>): Sys {
    Run(Start(w), steps)
  }

  lemma ReachedInv(w: World, steps: seq<Step>)
    requires Fresh(w)
    ensures Inv(Reached(w, steps), w.cluster.spec.size)
  {
    StartInv(w);
    RunInv(Start(w), steps, w.cluster.spec.size);
  }

  // ----- one repair at a time, and only of a failed member

  /** At most one member is being repaired, however the workers interleave. */
  lemma SingleRepair(w: World, steps: seq<Step>, i: nat, j: nat)
    requires Fresh(w)
    ensures var slots := Reached(w, steps).w.slots;
            i < |slots| && j < |slots| && Dirty(slots[i].member) && Dirty(slots[j].member) ==> i == j
  {
    ReachedInv(w, steps);
  }

  /** A member that is marked broken is Failed, or its repair has come as far as Recreating. */
  lemma BrokenIsFailed(w: World, steps: seq<Step>, i: nat)
    requires Fresh(w)
    ensures var slots := Reached(w, steps).w.slots;
            i < |slots| && slots[i].member.spec.broken ==>
              slots[i].member.status.phase == Failed || slots[i].member.status.phase == Recreating
  {
    ReachedInv(w, steps);
  }

  /** As long as a worker is anywhere in a repair its copy is what is stored: the member is marked and has not
      recovered. So not even the pod of a recovered member is deleted by a repair. */
  lemma RepairIsCurrent(w: World, steps: seq<Step>, i: nat)
    requires Fresh(w)
    ensures var s := Reached(w, steps);
            i < |s.procs| && s.procs[i].Busy? && InRepair(s.procs[i].pc) ==>
              i < |s.w.slots| && s.procs[i].mem == s.w.slots[i].member && s.procs[i].mem.spec.broken
              && (s.procs[i].mem.status.phase == Failed || s.procs[i].mem.status.phase == Recreating)
  {
    ReachedInv(w, steps);
    var s := Reached(w, steps);
    if i < |s.procs| {
      assert SlotOk(s.w.slots[i]) && ProcOk(s.w.slots[i], s.procs[i]);
    }
  }

  /** A step of a controller starts to delete member i's volume, or takes its URL out of etcd's list. */
  ghost predicate TearsDown(s: Sys, step: Step, i: nat) {
    var t := Apply(s, step);
    !step.Environment? && i < |s.w.slots| && i < |t.w.slots|
    && ((s.w.slots[i].pvc.Some? && !s.w.slots[i].pvc.value.terminating
         && (t.w.slots[i].pvc.Some? ==> t.w.slots[i].pvc.value.terminating))
        || (HasPeer(s.w.etcd.entries, i) && !HasPeer(t.w.etcd.entries, i)))
  }

  /** Only a member that is stored as broken, and so has not recovered, loses its volume or its
      place in the list; its pod is gone by then. */
  lemma OnlyBrokenTornDown(w: World, steps: seq<Step>, step: Step, i: nat)
    requires Fresh(w) && TearsDown(Reached(w, steps), step, i)
    ensures var slot := Reached(w, steps).w.slots[i];
            slot.member.spec.broken && slot.pod.None?
            && (slot.member.status.phase == Failed || slot.member.status.phase == Recreating)
  {
    ReachedInv(w, steps);
    var s := Reached(w, steps);
    var n := Count(w.cluster.spec.size);
    if step.MemberCall? && step.i < |s.procs| && s.procs[step.i].Busy? {
      var p := s.procs[step.i];
      var v := View(p.mem, s.w.slots[step.i], s.w.etcd);
      MemberCallList(step.i, n, p.pc, v, s.w.now);
      assert SlotOk(s.w.slots[step.i]) && ProcOk(s.w.slots[step.i], p);
    } else if step.ClusterCall? {
      ClusterKeepsObjects(s, w.cluster.spec.size, i);
    }
  }

  lemma ClusterKeepsObjects(s: Sys, size: int, i: nat)
    requires Inv(s, size) && i < |s.w.slots|
    ensures var t := ClusterCalled(s);
            i < |t.w.slots| && t.w.etcd == s.w.etcd
            && t.w.slots[i] == s.w.slots[i].(member := t.w.slots[i].member)
            && t.w.slots[i].member.status == s.w.slots[i].member.status
  {
    match s.cluster
    case EnsurePass(c, read) => EnsuredInv(s, c, |read|, size);
    case RepairPass(c, _, read) => PresentEnsured(s, c, |read|);
    case UpdatePass(c, k) => PresentEnsured(s, c, k);
    case ClusterIdle =>
    case StatusWrite(_) =>
    case _ => SpecWritten(s, size, i);
  }

  lemma SpecWritten(s: Sys, size: int, i: nat)
    requires Inv(s, size) && i < |s.w.slots|
    requires s.cluster.BreakWrite? || s.cluster.VersionWrite? || s.cluster.RotationWrite?
    ensures var t := ClusterCalled(s);
            i < |t.w.slots| && t.w.etcd == s.w.etcd
            && t.w.slots[i] == s.w.slots[i].(member := t.w.slots[i].member)
            && t.w.slots[i].member.status == s.w.slots[i].member.status
  {
  }

  // ----- a member is marked broken

  predicate MarksBroken(s: Sys, step: Step, i: nat) {
    var t := Apply(s, step);
    i < |s.w.slots| && i < |t.w.slots| && !s.w.slots[i].member.spec.broken && t.w.slots[i].member.spec.broken
  }

  lemma OnlyRepairMarks(s: Sys, step: Step, i: nat, size: int)
    requires Inv(s, size) && MarksBroken(s, step, i)
    ensures step.ClusterCall? && s.cluster.BreakWrite? && Oldest(s.cluster.read, s.cluster.cutoff) == Some(i)
    ensures s.w.slots[i].member == s.cluster.read[i]
  {
    if step.MemberCall? {
      var p := s.procs[step.i];
      assert SlotOk(s.w.slots[step.i]) && ProcOk(s.w.slots[step.i], p);
      MemberCallSlot(step.i, p.pc, View(p.mem, s.w.slots[step.i], s.w.etcd), s.w.now);
    } else if step.ClusterCall? {
      match s.cluster
      case EnsurePass(c, read) => EnsuredInv(s, c, |read|, size);
      case RepairPass(c, _, read) => PresentEnsured(s, c, |read|);
      case UpdatePass(c, k) => PresentEnsured(s, c, k);
      case _ =>
    } else if step.Environment? && !step.e.Tick? && !step.e.UserEdit? && !step.e.EtcdStarted? {
      if step.e.i < |s.w.slots| {
        EnvSlotOk(s.w.slots[step.e.i], s.procs[step.e.i], step.e, s.w.now);
      }
    }
  }

  /** Whenever a member is marked broken, the pass that decided it read every member: the marked one
      is the longest-failed, failed more than five minutes before the pass, and is still stored as it was
      read; a strict majority of all members was serving, which is a quorum of the list before, during and
      after its re-add; and every one of those is in the list. */
  lemma QuorumAtRepair(w: World, steps: seq<Step>, step: Step, i: nat)
    requires Fresh(w) && MarksBroken(Reached(w, steps), step, i)
    ensures var s := Reached(w, steps);
            var n := Count(w.cluster.spec.size);
            && s.cluster.BreakWrite? && |s.cluster.read| == n == |s.w.slots|
            && IsLongestFailed(s.cluster.read, s.cluster.cutoff, i)
            && s.w.slots[i].member == s.cluster.read[i]
            && s.w.slots[i].member.status.failedTime + 300 < s.w.now
            && CountServing(s.cluster.read) >= n / 2 + 1 >= (n - 1) / 2 + 1
            && |s.w.etcd.entries| == n
            && forall k: nat :: k < n ==> HasPeer(s.w.etcd.entries, k)
  {
    ReachedInv(w, steps);
    var s := Reached(w, steps);
    OnlyRepairMarks(s, step, i, w.cluster.spec.size);
    ReadsAreReal(w, steps, i);
    OldestIsLongestFailed(s.cluster.read, s.cluster.cutoff);
    EveryoneCounted(s.cluster.read);
    NoneCreating(s.cluster.read);
    assert forall k :: 0 <= k < |s.w.slots| ==> !Dirty(s.w.slots[k].member);
    WholeList(s, w.cluster.spec.size);
  }

  lemma WholeList(s: Sys, size: int)
    requires Inv(s, size) && forall k :: 0 <= k < |s.w.slots| ==> !s.w.slots[k].member.spec.broken
    ensures |s.w.etcd.entries| == Count(size) && forall k: nat :: k < Count(size) ==> HasPeer(s.w.etcd.entries, k)
  {
    ListSize(s, size);
    PeersCount(s.w.etcd.entries);
    assert Peers(s.w.etcd.entries) == Below(Count(size));
  }

  lemma ListSize(s: Sys, size: int)
    requires Inv(s, size)
    ensures Count(size) - 1 <= |s.w.etcd.entries| <= Count(size)
    ensures PeersDistinct(s.w.etcd.entries)
  {
    forall a: nat, b: nat | a < Count(size) && b < Count(size)
      && !HasPeer(s.w.etcd.entries, a) && !HasPeer(s.w.etcd.entries, b)
      ensures a == b
    {
      assert Dirty(s.w.slots[a].member) && Dirty(s.w.slots[b].member);
    }
    SizeOfList(s.w.etcd.entries, Count(size));
  }

  /** read[j] is what was stored for member j at a moment of this very pass, right after the
      members before it had been read. */
  ghost predicate ReadInPass(w: World, steps: seq<Step>, c: Cluster, cutoff: Time, read: seq<Member>, j: nat)
    requires j < |read|
  {
    exists k :: 0 <= k < |steps|
      && (var s := Reached(w, steps[..k]);
          j < |s.w.slots| && s.w.slots[j].member == read[j] && s.cluster == RepairPass(c, cutoff, read[..j])
          && cutoff + MINOR_FAILED_TIMEOUT <= s.w.now)
  }

  predicate HoldsReads(p: ClusterProc) {
    p.RepairPass? || p.BreakWrite?
  }

  /** How a worker in state p came to hold what q holds. */
  predicate ReadsGrew(s: Sys, q: ClusterProc)
    requires HoldsReads(q)
  {
    var p := s.cluster;
    (q.read == [] && q.cutoff + MINOR_FAILED_TIMEOUT == s.w.now)
    || p == q
    || (p.RepairPass? && q.c == p.c && q.cutoff == p.cutoff && |p.read| < |s.w.slots|
        && q.read == p.read + [s.w.slots[|p.read|].member])
  }

  lemma RepairReads(s: Sys, step: Step, size: int)
    requires Inv(s, size) && HoldsReads(Apply(s, step).cluster)
    ensures ReadsGrew(s, Apply(s, step).cluster)
    ensures s.w.now <= Apply(s, step).w.now
  {
    if step.ClusterCall? {
      CallReads(s, size);
    }
  }

  lemma CallReads(s: Sys, size: int)
    requires Inv(s, size) && HoldsReads(ClusterCalled(s).cluster)
    ensures ReadsGrew(s, ClusterCalled(s).cluster)
  {
    if s.cluster.RepairPass? {
      PresentEnsured(s, s.cluster.c, |s.cluster.read|);
    }
  }

  ghost predicate ReadsReal(w: World, steps: seq<Step>, q: ClusterProc, now: Time, j: nat) {
    HoldsReads(q) ==>
      q.cutoff + MINOR_FAILED_TIMEOUT <= now
      && (j < |q.read| ==> ReadInPass(w, steps, q.c, q.cutoff, q.read, j))
  }

  lemma {:induction false} ReadsAreReal(w: World, steps: seq<Step>, j: nat)
    requires Fresh(w)
    ensures ReadsReal(w, steps, Reached(w, steps).cluster, Reached(w, steps).w.now, j)
  {
    if steps != [] {
      var before, step := steps[..|steps| - 1], steps[|steps| - 1];
      var s := Reached(w, before);
      ReachedInv(w, before);
      ReadsAreReal(w, before, j);
      assert steps == before + [step];
      if HoldsReads(Apply(s, step).cluster) {
        RepairReads(s, step, w.cluster.spec.size);
        OneMoreRead(w, before, step, Apply(s, step).cluster, Apply(s, step).w.now, j);
      }
    }
  }

  lemma OneMoreRead(w: World, before: seq<Step>, step: Step, q: ClusterProc, now: Time, j: nat)
    requires var s := Reached(w, before);
             HoldsReads(q) && ReadsGrew(s, q) && ReadsReal(w, before, s.cluster, s.w.now, j) && s.w.now <= now
    ensures ReadsReal(w, before + [step], q, now, j)
  {
    var s := Reached(w, before);
    if j < |q.read| {
      if j < |s.cluster.read| {
        ReadEarlier(w, before, step, s.cluster.read, q, j);
      } else {
        assert (before + [step])[..|before|] == before;
        assert q.read[..j] == s.cluster.read;
      }
    }
  }

  lemma ReadEarlier(w: World, before: seq<Step>, step: Step, read: seq<Member>, q: ClusterProc, j: nat)
    requires HoldsReads(q) && j < |read| <= |q.read| && q.read[..|read|] == read
    requires ReadInPass(w, before, q.c, q.cutoff, read, j)
    ensures ReadInPass(w, before + [step], q.c, q.cutoff, q.read, j)
  {
    assert q.read[..j] == read[..j] && q.read[j] == read[j];
    var k :| 0 <= k < |before|
      && (var s := Reached(w, before[..k]);
          j < |s.w.slots| && s.w.slots[j].member == read[j] && s.cluster == RepairPass(q.c, q.cutoff, read[..j])
          && q.cutoff + MINOR_FAILED_TIMEOUT <= s.w.now);
    assert (before + [step])[..k] == before[..k];
  }

  // ----- the re-add

  /** At every moment, also between two remote calls and after any number of lost workers: no URL is
      listed twice, n - 1 or n are listed, and only a broken member's URL can be missing. */
  lemma ReaddSafe(w: World, steps: seq<Step>)
    requires Fresh(w)
    ensures var s := Reached(w, steps);
            var n := Count(w.cluster.spec.size);
            && PeersDistinct(s.w.etcd.entries)
            && n - 1 <= |s.w.etcd.entries| <= n
            && forall k: nat :: k < n && !HasPeer(s.w.etcd.entries, k) ==>
                 k < |s.w.slots| && s.w.slots[k].member.spec.broken
  {
    ReachedInv(w, steps);
    ListSize(Reached(w, steps), w.cluster.spec.size);
  }

  /** The mark is taken away only when the whole cluster is listed again, and together with it the
      member has become Recreating, with no pod and no volume left of its old life. */
  lemma ClearedWhenListed(w: World, steps: seq<Step>, step: Step, i: nat)
    requires Fresh(w)
    requires var s, t := Reached(w, steps), Apply(Reached(w, steps), step);
             i < |s.w.slots| && i < |t.w.slots| && s.w.slots[i].member.spec.broken && !t.w.slots[i].member.spec.broken
    ensures var t := Apply(Reached(w, steps), step);
            var n := Count(w.cluster.spec.size);
            && |t.w.etcd.entries| == n && (forall k: nat :: k < n ==> HasPeer(t.w.etcd.entries, k))
            && t.w.slots[i].member.status.phase == Recreating
            && t.w.slots[i].pod.None? && t.w.slots[i].pvc.None?
  {
    var s, t := Reached(w, steps), Apply(Reached(w, steps), step);
    var size := w.cluster.spec.size;
    ReachedInv(w, steps);
    ClearedByWrite(s, step, i, size);
    StepInv(s, step, size);
    NobodyMissing(s, t, i, size);
  }

  lemma ClearedByWrite(s: Sys, step: Step, i: nat, size: int)
    requires Inv(s, size) && i < |s.w.slots| && s.w.slots[i].member.spec.broken
    requires var t := Apply(s, step); i < |t.w.slots| && !t.w.slots[i].member.spec.broken
    ensures var slot := Apply(s, step).w.slots[i];
            slot.member.status.phase == Recreating && slot.pod.None? && slot.pvc.None?
  {
    assert SlotOk(s.w.slots[i]) && ProcOk(s.w.slots[i], s.procs[i]);
    if step.ClusterCall? {
      ClusterKeepsBroken(s, size, i);
    }
  }

  lemma ClusterKeepsBroken(s: Sys, size: int, i: nat)
    requires Inv(s, size) && i < |s.w.slots| && s.w.slots[i].member.spec.broken
    ensures Apply(s, ClusterCall).w.slots[i].member.spec.broken
  {
    match s.cluster
    case EnsurePass(c, read) => EnsuredInv(s, c, |read|, size);
    case RepairPass(c, _, read) => PresentEnsured(s, c, |read|);
    case UpdatePass(c, k) => PresentEnsured(s, c, k);
    case _ =>
  }

  lemma NobodyMissing(s: Sys, t: Sys, i: nat, size: int)
    requires Inv(s, size) && Inv(t, size) && i < |s.w.slots| && i < |t.w.slots|
    requires s.w.slots[i].member.spec.broken && !t.w.slots[i].member.spec.broken
    requires t.w.slots[i].member.status.phase == Recreating
    ensures |t.w.etcd.entries| == Count(size) && forall k: nat :: k < Count(size) ==> HasPeer(t.w.etcd.entries, k)
  {
    assert Dirty(t.w.slots[i].member);
    forall k | 0 <= k < |t.w.slots|
      ensures !t.w.slots[k].member.spec.broken
    {
      if k != i {
        assert !Dirty(t.w.slots[k].member);
      }
    }
    WholeList(t, size);
  }

  // ----- what a repaired member starts from

  /** A pod always has its volume and certificates, and a volume that a repair made is mounted, until a
      pod on it has been ready, only by pods that join an existing cluster and restore no backup. */
  lemma RepairedRejoins(w: World, steps: seq<Step>, i: nat)
    requires Fresh(w) && i < |Reached(w, steps).w.slots|
    ensures var slot := Reached(w, steps).w.slots[i];
            slot.pod.Some? ==>
              && slot.pvc.Some? && slot.Issued()
              && (slot.pvc.value.recreated && !slot.pvc.value.seenReady ==>
                    slot.pod.value.state == Existing && !slot.pod.value.restore)
  {
    ReachedInv(w, steps);
    assert SlotOk(Reached(w, steps).w.slots[i]);
  }

  // ----- volumes with data

  /** A member that has served and has no volume on which a pod was ever ready. */
  predicate WithoutData(s: Slot) {
    s.member.status.phase != NoPhase && !s.UsedVolume()
  }

  /** At every moment of every run at most one member that has ever served is without its data, and it is the one
      that is being repaired. */
  lemma OneWithoutData(w: World, steps: seq<Step>, i: nat, j: nat)
    requires Fresh(w)
    ensures var slots := Reached(w, steps).w.slots;
            && (i < |slots| && WithoutData(slots[i]) ==> Dirty(slots[i].member))
            && (i < |slots| && j < |slots| && WithoutData(slots[i]) && WithoutData(slots[j]) ==> i == j)
  {
    ReachedInv(w, steps);
    var slots := Reached(w, steps).w.slots;
    assert i < |slots| ==> SlotOk(slots[i]);
    assert j < |slots| ==> SlotOk(slots[j]);
  }

  // ----- the life cycle of a member

  predicate LifeEdge(a: MemberPhase, b: MemberPhase) {
    match (a, b)
    case (NoPhase, Running) => true
    case (Running, Failed) => true
    case (Running, Updating) => true
    case (Updating, Running) => true
    case (Failed, Running) => true
    case (Failed, Recreating) => true
    case (Recreating, Running) => true
    case _ => false
  }

  /** Stored phases change along these seven edges and no others; a member is created with none. */
  lemma LifeCycle(w: World, steps: seq<Step>, step: Step, i: nat)
    requires Fresh(w)
    ensures var s, t := Reached(w, steps), Apply(Reached(w, steps), step);
            && |s.w.slots| <= |t.w.slots|
            && (i < |s.w.slots| ==>
                  var a, b := s.w.slots[i].member.status.phase, t.w.slots[i].member.status.phase;
                  a == b || LifeEdge(a, b))
            && (|s.w.slots| <= i < |t.w.slots| ==> t.w.slots[i].member.status.phase == NoPhase)
  {
    var s, t := Reached(w, steps), Apply(Reached(w, steps), step);
    var size := w.cluster.spec.size;
    ReachedInv(w, steps);
    if step.ClusterCall? {
      if i < |s.w.slots| {
        ClusterKeepsObjects(s, size, i);
      }
      NewMembers(s, size, i);
    } else {
      LocalPhases(s, step, size, i);
    }
  }

  /** Steps that the cluster's worker does not make. */
  lemma LocalPhases(s: Sys, step: Step, size: int, i: nat)
    requires Inv(s, size) && !step.ClusterCall?
    ensures var t := Apply(s, step);
            && |s.w.slots| == |t.w.slots|
            && (i < |s.w.slots| ==>
                  var a, b := s.w.slots[i].member.status.phase, t.w.slots[i].member.status.phase;
                  a == b || LifeEdge(a, b))
  {
    if step.MemberCall? && step.i < |s.procs| && s.procs[step.i].Busy? {
      assert SlotOk(s.w.slots[step.i]) && ProcOk(s.w.slots[step.i], s.procs[step.i]);
      MemberCallSlot(step.i, s.procs[step.i].pc, View(s.procs[step.i].mem, s.w.slots[step.i], s.w.etcd), s.w.now);
    } else if step.Environment? && i < |s.w.slots| {
      EnvSlotOk(s.w.slots[i], s.procs[i], step.e, s.w.now);
    }
  }

  lemma NewMembers(s: Sys, size: int, i: nat)
    requires Inv(s, size)
    ensures var t := Apply(s, ClusterCall);
            |s.w.slots| <= |t.w.slots|
            && (|s.w.slots| <= i < |t.w.slots| ==> t.w.slots[i].member.status.phase == NoPhase)
  {
  }
}
