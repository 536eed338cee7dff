/** Rollout and rotation together: how many members the cluster controller has told to replace their pod. */

module Replacements {
  import opened Api
  import opened Objects
  import opened ClusterController
  import opened Interleaving
  import opened Invariant
  import opened Rollouts
  import opened Rotation

  /** Between two versions, or asked to take a new certificate. */
  predicate Replaced(m: Member) {
    !Matched(m) || m.spec.certificateUpdate
  }

  /** Everybody below a member that was asked is at the version, and everybody below one between versions is
      done with its certificate. */
  predicate Ordered(slots: seq<Slot>, v: string, u: nat) {
    && (forall k :: 0 <= k < |slots| && slots[k].member.spec.certificateUpdate ==> AllAt(slots, k, v))
    && (forall k :: 0 <= k < |slots| && !Matched(slots[k].member) ==> AllLower(slots, k, u))
  }

  predicate BumpKnows(slots: seq<Slot>, p: ClusterProc, u: nat) {
    p.VersionWrite? ==> AllLower(slots, p.i, u)
  }

  ghost predicate BothInv(s: Sys, size: int, v: string, u: nat) {
    u >= Count(size) && RolloutInv(s, size, v) && RotationInv(s, size, u)
    && Ordered(s.w.slots, v, u) && BumpKnows(s.w.slots, s.cluster, u)
  }

  lemma FollowOrdered(a: seq<Slot>, b: seq<Slot>, p: ClusterProc, v: string, u: nat)
    requires u >= |a| && VersionsFollow(a, b) && FlagsFall(a, b, u) && Ordered(a, v, u) && BumpKnows(a, p, u)
    ensures Ordered(b, v, u) && BumpKnows(b, p, u)
  {
    assert forall k :: 0 <= k <= |a| && AllAt(a, k, v) ==> AllAt(b, k, v);
    assert forall k :: 0 <= k <= |a| && AllLower(a, k, u) ==> AllLower(b, k, u);
    assert forall k :: 0 <= k < |b| && !Matched(b[k].member) ==> !Matched(a[k].member);
  }

  lemma PassOrdered(s: Sys, size: int, v: string, u: nat)
    requires BothInv(s, size, v, u) && (s.cluster.EnsurePass? || s.cluster.RepairPass? || s.cluster.UpdatePass?)
    ensures ClusterCalled(s).w.slots == s.w.slots && BumpKnows(s.w.slots, ClusterCalled(s).cluster, u)
  {
    PassKeeps(s, size, v);
    if s.cluster.UpdatePass? {
      PresentEnsured(s, s.cluster.c, s.cluster.i);
    }
  }

  lemma BumpOrdered(a: seq<Slot>, i: nat, spec: MemberSpec, v: string, u: nat)
    requires i < |a| <= u && Ordered(a, v, u) && AllLower(a, i, u) && a[i].member.spec.version != v
    requires spec == a[i].member.spec.(version := v)
    ensures Ordered(a[i := WithSpec(a[i], spec)], v, u)
  {
    var b := a[i := WithSpec(a[i], spec)];
    assert forall k :: 0 <= k <= |a| && AllLower(a, k, u) ==> AllLower(b, k, u);
    forall k | 0 <= k < |b| && b[k].member.spec.certificateUpdate
      ensures AllAt(b, k, v)
    {
      assert AllAt(a, k, v);
      assert k <= i;
    }
  }

  lemma RequestOrdered(a: seq<Slot>, i: nat, spec: MemberSpec, v: string, u: nat)
    requires i < |a| <= u && Ordered(a, v, u) && AllAt(a, i, v)
    requires spec == a[i].member.spec.(certificateUpdate := a[i].member.status.certificateExpires)
    ensures Ordered(a[i := WithSpec(a[i], spec)], v, u)
  {
    var b := a[i := WithSpec(a[i], spec)];
    assert forall k :: 0 <= k <= |a| && AllAt(a, k, v) ==> AllAt(b, k, v);
    forall k | 0 <= k < |b| && !Matched(b[k].member)
      ensures AllLower(b, k, u)
    {
      assert AllLower(a, k, u);
      assert k > i ==> Lower(a[i].member);
    }
  }

  lemma VersionWriteOrdered(s: Sys, size: int, v: string, u: nat)
    requires BothInv(s, size, v, u) && s.cluster.VersionWrite?
    ensures Ordered(ClusterCalled(s).w.slots, v, u)
  {
    var c, i, m := s.cluster.c, s.cluster.i, s.cluster.m;
    if Current(s.w.slots, i, m) {
      assert m == s.w.slots[i].member;
      BumpOrdered(s.w.slots, i, m.spec.(version := v), v, u);
    }
  }

  lemma RotationWriteOrdered(s: Sys, size: int, v: string, u: nat)
    requires BothInv(s, size, v, u) && s.cluster.RotationWrite?
    ensures Ordered(ClusterCalled(s).w.slots, v, u)
  {
    var i, m := s.cluster.i, s.cluster.m;
    if Current(s.w.slots, i, m) {
      assert m == s.w.slots[i].member;
      RequestOrdered(s.w.slots, i, m.spec.(certificateUpdate := m.status.certificateExpires), v, u);
    }
  }

  lemma ClusterCallOrdered(s: Sys, size: int, v: string, u: nat)
    requires BothInv(s, size, v, u)
    ensures Ordered(ClusterCalled(s).w.slots, v, u) && BumpKnows(ClusterCalled(s).w.slots, ClusterCalled(s).cluster, u)
  {
    match s.cluster
    case ClusterIdle =>
    case StatusWrite(_) =>
    case VersionWrite(_, _, _) => VersionWriteOrdered(s, size, v, u);
    case RotationWrite(_, _, _) => RotationWriteOrdered(s, size, v, u);
    case BreakWrite(_, _, _) =>
      BreakWriteKeeps(s, size, v);
      BreakWriteFlags(s, size, u);
      FollowOrdered(s.w.slots, ClusterCalled(s).w.slots, ClusterIdle, v, u);
    case _ => PassOrdered(s, size, v, u);
  }

  lemma StepOrdered(s: Sys, step: Step, size: int, v: string, u: nat)
    requires BothInv(s, size, v, u) && s.w.cluster.spec.version == v && !Renews(s, step)
    ensures BothInv(Apply(s, step), size, v, u)
  {
    Rollouts.StepKeeps(s, step, size, v);
    Rotation.StepKeeps(s, step, size, u);
    if step.ClusterCall? {
      ClusterCallOrdered(s, size, v, u);
    } else if !step.ClusterStart? {
      MemberStepVersions(s, step, size);
      LocalStepFlags(s, step, size, u);
      FollowOrdered(s.w.slots, Apply(s, step).w.slots, s.cluster, v, u);
    }
  }

  lemma {:induction false} BothRun(s: Sys, steps: seq<Step>, size: int, v: string)
    requires Inv(s, size) && Settled(s, size) && Calm(s, Count(size)) && Steady(s, steps, v) && NoRenewals(s, steps)
    ensures BothInv(Run(s, steps), size, v, Count(size))
  {
    if steps != [] {
      var before := steps[..|steps| - 1];
      assert forall k :: 0 <= k <= |before| ==> before[..k] == steps[..k];
      assert forall k :: 0 <= k < |before| ==> before[k] == steps[k];
      BothRun(s, before, size, v);
      assert before == steps[..|before|];
      StepOrdered(Run(s, before), steps[|steps| - 1], size, v, Count(size));
    }
  }

  /** As long as the cluster's version stays the same and no certificate is renewed, at most one member is between
      versions or asked to take a new certificate, in every state of every interleaved run. Disruptions.OneDown
      says what this means for the pods. */
  lemma OneReplacement(s: Sys, steps: seq<Step>, size: int, v: string, i: nat, j: nat)
    requires Inv(s, size) && Settled(s, size) && Calm(s, Count(size)) && Steady(s, steps, v) && NoRenewals(s, steps)
    ensures var slots := Run(s, steps).w.slots;
            i < |slots| && j < |slots| && Replaced(slots[i].member) && Replaced(slots[j].member) ==> i == j
  {
    BothRun(s, steps, size, v);
    var slots := Run(s, steps).w.slots;
    if i < j < |slots| {
      NotBoth(slots, v, Count(size), i, j);
    } else if j < i < |slots| {
      NotBoth(slots, v, Count(size), j, i);
    }
  }

  lemma NotBoth(slots: seq<Slot>, v: string, u: nat, a: nat, b: nat)
    requires a < b < |slots| <= u && InOrder(slots, v) && RequestsOk(slots, u) && Ordered(slots, v, u)
    ensures !Replaced(slots[a].member) || !Replaced(slots[b].member)
  {
    if Replaced(slots[b].member) {
      assert AllAt(slots, b, v) && AllLower(slots, b, u);
      assert AtVersion(slots[a].member, v) && Lower(slots[a].member);
    }
  }
}
